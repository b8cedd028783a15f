/** Which size lines are read as which size (apifront.rs, dechunk), in terms of characters and numerals. */
module DechunkSizes {
  import opened Bytes
  import opened Utf8
  import opened Utf8Exact
  import opened Dechunk

  /* ---- white space ---- */

  /** The characters with the White_Space property of Unicode. */
  predicate White(c: nat) {
    || 9 <= c <= 13 || c == 0x20 || c == 0x85 || c == 0xA0 || c == 0x1680
    || 0x2000 <= c <= 0x200A || c == 0x2028 || c == 0x2029 || c == 0x202F || c == 0x205F || c == 0x3000
  }

  ghost predicate Blank(s: seq<byte>) {
    exists cs :: AllWhite(cs) && EncodeAll(cs) == s
  }

  predicate AllWhite(cs: seq<nat>) {
    forall i :: 0 <= i < |cs| ==> White(cs[i]) && Scalar(cs[i])
  }

  lemma {:induction false} WhiteEncoded(c: nat, t: seq<byte>)
    requires White(c)
    ensures SpaceBefore(Encode(c) + t) == |Encode(c)| && SpaceAfter(t + Encode(c)) == |Encode(c)|
  {
  }

  lemma {:induction false} SpaceIsWhite(s: seq<byte>) returns (c: nat)
    requires SpaceBefore(s) > 0
    ensures White(c) && Scalar(c) && Encode(c) == s[..SpaceBefore(s)]
  {
    c := if AsciiSpace(s[0]) then s[0] else if Space2(s[0], s[1]) then s[1] else WhiteOf(s[0], s[1], s[2]);
    assert Encode(c) == s[..SpaceBefore(s)];
  }

  function WhiteOf(a: byte, b: byte, c: byte): nat
    requires Space3(a, b, c)
  {
    var v: int := c;
    if a == 0xE1 then 0x1680 else if a == 0xE3 then 0x3000 else if b == 0x81 then 0x205F else 0x2000 + v - 0x80
  }

  lemma {:induction false} SpaceBehindIsWhite(s: seq<byte>) returns (c: nat)
    requires SpaceAfter(s) > 0
    ensures White(c) && Scalar(c) && Encode(c) == s[|s| - SpaceAfter(s)..]
  {
    var k := |s|;
    c := if AsciiSpace(s[k - 1]) then s[k - 1] else if k >= 2 && Space2(s[k - 2], s[k - 1]) then s[k - 1] else WhiteOf(s[k - 3], s[k - 2], s[k - 1]);
    assert Encode(c) == s[k - SpaceAfter(s)..];
  }

  lemma {:induction false} EncodeAllSnoc(cs: seq<nat>, c: nat)
    requires Scalars(cs) && Scalar(c)
    ensures Scalars(cs + [c]) && EncodeAll(cs + [c]) == EncodeAll(cs) + Encode(c)
  {
    hide Encode;
    if cs == [] {
      assert cs + [c] == [c] && [c][1..] == [];
    } else {
      EncodeAllSnoc(cs[1..], c);
      assert (cs + [c])[1..] == cs[1..] + [c];
    }
  }

  lemma {:induction false} NoBlank()
    ensures Blank([])
  {
    var cs: seq<nat> := [];
    assert AllWhite(cs) && EncodeAll(cs) == [];
  }

  lemma {:induction false} BlankInFront(c: nat, s: seq<byte>)
    requires White(c) && Scalar(c) && Blank(s)
    ensures Blank(Encode(c) + s)
  {
    var cs :| AllWhite(cs) && EncodeAll(cs) == s;
    assert ([c] + cs)[1..] == cs;
    assert EncodeAll([c] + cs) == Encode(c) + s;
  }

  lemma {:induction false} BlankBehind(s: seq<byte>, c: nat)
    requires White(c) && Scalar(c) && Blank(s)
    ensures Blank(s + Encode(c))
  {
    var cs :| AllWhite(cs) && EncodeAll(cs) == s;
    EncodeAllSnoc(cs, c);
    assert AllWhite(cs + [c]);
  }

  lemma {:induction false} TrimStep(s: seq<byte>)
    ensures SpaceBefore(s) > 0 ==> Trim(s) == Trim(s[SpaceBefore(s)..])
    ensures SpaceBefore(s) == 0 && SpaceAfter(s) > 0 ==> Trim(s) == Trim(s[..|s| - SpaceAfter(s)])
    ensures SpaceBefore(s) == 0 && SpaceAfter(s) == 0 ==> Trim(s) == s
  {
    hide SpaceBefore, SpaceAfter;
  }

  lemma {:induction false} InFront(s: seq<byte>, n: nat, front: seq<byte>, core: seq<byte>, back: seq<byte>)
    requires n <= |s| && s[n..] == front + core + back
    ensures s == (s[..n] + front) + core + back
  {
    assert s == s[..n] + s[n..];
  }

  lemma {:induction false} Behind(s: seq<byte>, n: nat, front: seq<byte>, core: seq<byte>, back: seq<byte>)
    requires n <= |s| && s[..n] == front + core + back
    ensures s == front + core + (back + s[n..])
  {
    assert s == s[..n] + s[n..];
  }

  lemma {:induction false} NoEnds(s: seq<byte>)
    ensures s == [] + s + []
  {
  }

  /** Trimming takes blanks off both ends. */
  lemma {:induction false} Trimmed(s: seq<byte>) returns (front: seq<byte>, back: seq<byte>)
    ensures Blank(front) && Blank(back) && s == front + Trim(s) + back
    decreases |s|
  {
    NoBlank();
    TrimStep(s);
    NoEnds(s);
    hide Blank, Encode, SpaceBefore, SpaceAfter, White, Trim;
    front, back := [], [];
    if SpaceBefore(s) > 0 {
      var n := SpaceBefore(s);
      var c := SpaceIsWhite(s);
      front, back := Trimmed(s[n..]);
      BlankInFront(c, front);
      InFront(s, n, front, Trim(s), back);
      front := s[..n] + front;
    } else if SpaceAfter(s) > 0 {
      var n := |s| - SpaceAfter(s);
      var c := SpaceBehindIsWhite(s);
      front, back := Trimmed(s[..n]);
      BlankBehind(back, c);
      Behind(s, n, front, Trim(s), back);
      back := back + s[n..];
    }
  }

  /** A text that begins and ends with a printing ASCII character. */
  predicate Core(core: seq<byte>) {
    core != [] && 33 <= core[0] < 127 && 33 <= core[|core| - 1] < 127
  }

  lemma {:induction false} FirstOff(e: seq<byte>, rest: seq<byte>, t: seq<byte>)
    ensures e + rest + t == e + (rest + t) && (e + rest + t)[|e|..] == rest + t
  {
  }

  lemma {:induction false} LastOff(core: seq<byte>, rest: seq<byte>, e: seq<byte>)
    ensures core + (rest + e) == (core + rest) + e && (core + (rest + e))[..|core + rest|] == core + rest
  {
  }

  lemma {:induction false} TrimsFront(cs: seq<nat>, t: seq<byte>)
    requires AllWhite(cs)
    ensures Trim(EncodeAll(cs) + t) == Trim(t)
  {
    if cs == [] {
      assert EncodeAll(cs) + t == t;
    } else {
      var e, rest := Encode(cs[0]), EncodeAll(cs[1..]);
      assert EncodeAll(cs) == e + rest;
      TrimsFront(cs[1..], t);
      assert White(cs[0]) && |e| > 0;
      hide *;
      WhiteEncoded(cs[0], rest + t);
      FirstOff(e, rest, t);
      TrimStep(e + rest + t);
    }
  }

  lemma {:induction false} CoreNotBlank(core: seq<byte>, t: seq<byte>)
    requires Core(core)
    ensures SpaceBefore(core + t) == 0 && SpaceAfter(core) == 0
  {
    assert (core + t)[0] == core[0];
  }

  lemma {:induction false} TrimsBack(core: seq<byte>, cs: seq<nat>)
    requires Core(core) && AllWhite(cs)
    ensures Trim(core + EncodeAll(cs)) == core
    decreases |cs|
  {
    if cs == [] {
      assert core + EncodeAll(cs) == core;
      CoreNotBlank(core, []);
      assert core + [] == core;
      TrimStep(core);
    } else {
      var last := |cs| - 1;
      var e, rest := Encode(cs[last]), EncodeAll(cs[..last]);
      EncodeAllSnoc(cs[..last], cs[last]);
      assert cs[..last] + [cs[last]] == cs;
      TrimsBack(core, cs[..last]);
      assert White(cs[last]) && |e| > 0;
      hide *;
      WhiteEncoded(cs[last], core + rest);
      CoreNotBlank(core, rest + e);
      LastOff(core, rest, e);
      TrimStep(core + (rest + e));
    }
  }

  /* ---- numerals ---- */

  predicate Digit(b: byte, d: nat) {
    || (d < 10 && b as int == '0' as int + d)
    || (10 <= d < 16 && (b as int == 'A' as int + d - 10 || b as int == 'a' as int + d - 10))
  }

  function Power(n: nat): nat {
    if n == 0 then 1 else 16 * Power(n - 1)
  }

  lemma {:induction false} HexDigitExact(b: byte)
    ensures IsHex(b) <==> exists d: nat :: Digit(b, d)
    ensures IsHex(b) ==> Digit(b, HexDigit(b))
  {
    if IsHex(b) {
      assert Digit(b, HexDigit(b));
    }
  }

  lemma {:induction false} PowerPositive(n: nat)
    ensures Power(n) > 0
  {
    if n > 0 {
      PowerPositive(n - 1);
    }
  }

  lemma {:induction false} NumeralBelow(digits: seq<byte>)
    requires AllHex(digits)
    ensures HexValue(digits) < Power(|digits|)
  {
    if digits != [] {
      NumeralBelow(digits[..|digits| - 1]);
    }
  }

  lemma {:induction false} NumeralSnoc(digits: seq<byte>)
    requires AllHex(digits) && digits != []
    ensures var front, last := digits[..|digits| - 1], digits[|digits| - 1];
      HexDigit(last) < 16 && HexValue(digits) == 16 * HexValue(front) + HexDigit(last)
  {
  }

  lemma {:induction false} FirstPlace(digits: seq<byte>)
    requires AllHex(digits) && digits != []
    ensures HexDigit(digits[|digits| - 1]) == HexValue(digits) / Power(0) % 16
  {
    NumeralSnoc(digits);
    hide HexDigit, HexValue;
    assert Power(0) == 1;
  }

  lemma {:induction false} NextPlace(digits: seq<byte>, k: nat)
    requires AllHex(digits) && digits != []
    ensures Power(k) > 0 && Power(k + 1) > 0
    ensures HexValue(digits) / Power(k + 1) == HexValue(digits[..|digits| - 1]) / Power(k)
  {
    PowerPositive(k);
    NumeralSnoc(digits);
    assert Power(k + 1) == 16 * Power(k);
    hide HexValue, HexDigit, Power;
    Shifted(HexValue(digits[..|digits| - 1]), HexDigit(digits[|digits| - 1]), Power(k));
  }

  /** The k-th place from the right of a numeral's value is its k-th digit from the right, and there are no further places. */
  lemma {:induction false} NumeralExact(digits: seq<byte>, k: nat)
    requires AllHex(digits) && k < |digits|
    ensures HexValue(digits) < Power(|digits|) && Power(k) > 0
    ensures Digit(digits[|digits| - 1 - k], HexValue(digits) / Power(k) % 16)
    decreases k
  {
    NumeralBelow(digits);
    PowerPositive(k);
    var front, last := digits[..|digits| - 1], digits[|digits| - 1];
    if k > 0 {
      hide HexDigit, HexValue, Digit, Power;
      NumeralExact(front, k - 1);
      NextPlace(digits, k - 1);
    } else {
      HexDigitExact(last);
      FirstPlace(digits);
      hide HexDigit, HexValue, Digit;
    }
  }

  lemma {:induction false} Shifted(v: nat, d: nat, p: nat)
    requires d < 16 && p > 0
    ensures (16 * v + d) / (16 * p) == v / p
  {
    var q, r := v / p, v % p;
    assert v == p * q + r;
    var w := 16 * v + d;
    assert w == (16 * p) * q + (16 * r + d);
    assert 16 * r + d < 16 * p;
    Quotient(w, 16 * p, q, 16 * r + d);
  }

  lemma {:induction false} Distributes(p: nat, a: nat, k: nat)
    ensures p * (a + k) == p * a + p * k && (k > 0 ==> p * k >= p)
  {
  }

  lemma {:induction false} Multiples(p: nat, a: nat, b: nat)
    ensures a < b ==> p * a + p <= p * b
  {
    if a < b {
      Distributes(p, a, b - a);
    }
  }

  lemma {:induction false} Quotient(w: nat, p: nat, q: nat, r: nat)
    requires p > 0 && r < p && w == p * q + r
    ensures w / p == q
  {
    var q', r' := w / p, w % p;
    assert w == p * q' + r';
    Multiples(p, q, q');
    Multiples(p, q', q);
  }

  /* ---- size lines ---- */

  /** A size line: blanks, a plus sign or not, digits, blanks, and then nothing or a semicolon and anything. */
  ghost predicate SizeLine(line: seq<byte>, front: seq<byte>, plus: seq<byte>, digits: seq<byte>, back: seq<byte>, rest: seq<byte>) {
    && line == front + (plus + digits) + back + rest && Blank(front) && Blank(back)
    && plus in {[], [43]} && digits != [] && AllHex(digits) && (rest == [] || rest[0] == 59)
  }

  lemma {:induction false} NoSemicolon(cs: seq<nat>)
    requires AllWhite(cs)
    ensures 59 !in EncodeAll(cs)
  {
    if cs != [] {
      NoSemicolon(cs[1..]);
      assert White(cs[0]);
    }
  }

  lemma {:induction false} UpToSemicolon(a: seq<byte>, rest: seq<byte>)
    requires 59 !in a && (rest == [] || rest[0] == 59)
    ensures BeforeSemicolon(a + rest) == a
  {
    if a != [] {
      UpToSemicolon(a[1..], rest);
      assert (a + rest)[1..] == a[1..] + rest;
    } else {
      assert a + rest == rest;
    }
  }

  lemma {:induction false} SemicolonCuts(line: seq<byte>) returns (rest: seq<byte>)
    ensures line == BeforeSemicolon(line) + rest && (rest == [] || rest[0] == 59)
  {
    if line == [] || line[0] == SEMICOLON {
      rest := line;
    } else {
      rest := SemicolonCuts(line[1..]);
      assert line == [line[0]] + line[1..];
    }
  }

  /** For any line at all: it is read as a size if and only if it is such a line and its numeral is below 2^64, and then as that. */
  lemma {:induction false} SizeExact(line: seq<byte>, size: nat)
    ensures SizeOf(line) == Some(size) <==>
      exists front, plus, digits, back, rest ::
        SizeLine(line, front, plus, digits, back, rest) && HexValue(digits) == size < 0x1_0000_0000_0000_0000
  {
    if SizeOf(line) == Some(size) {
      SizeTaken(line, size);
    }
    if front, plus, digits, back, rest :|
      SizeLine(line, front, plus, digits, back, rest) && HexValue(digits) == size < 0x1_0000_0000_0000_0000
    {
      SizeRead(line, front, plus, digits, back, rest);
    }
  }

  lemma {:induction false} SizeTaken(line: seq<byte>, size: nat)
    requires SizeOf(line) == Some(size)
    ensures exists front, plus, digits, back, rest ::
      SizeLine(line, front, plus, digits, back, rest) && HexValue(digits) == size < 0x1_0000_0000_0000_0000
  {
    var rest := SemicolonCuts(line);
    var front, back := Trimmed(BeforeSemicolon(line));
    hide BeforeSemicolon, Trim, Blank, HexValue;
    var token := Trim(BeforeSemicolon(line));
    var plus, digits := [], token;
    if token != [] && token[0] == PLUS {
      plus, digits := [43], token[1..];
    }
    assert token == plus + digits;
    assert SizeLine(line, front, plus, digits, back, rest);
  }

  lemma {:induction false} NoneOfThree(a: seq<byte>, b: seq<byte>, c: seq<byte>)
    requires 59 !in a && 59 !in b && 59 !in c
    ensures 59 !in a + b + c && a + b + c == a + (b + c)
  {
  }

  lemma {:induction false} TokenAlone(cs: seq<nat>, token: seq<byte>, ds: seq<nat>, rest: seq<byte>)
    requires AllWhite(cs) && AllWhite(ds) && Core(token) && 59 !in token && (rest == [] || rest[0] == 59)
    ensures Trim(BeforeSemicolon(EncodeAll(cs) + token + EncodeAll(ds) + rest)) == token
  {
    var front, back := EncodeAll(cs), EncodeAll(ds);
    NoSemicolon(cs);
    NoSemicolon(ds);
    NoneOfThree(front, token, back);
    TrimsFront(cs, token + back);
    TrimsBack(token, ds);
    hide *;
    UpToSemicolon(front + token + back, rest);
  }

  lemma {:induction false} SizeRead(line: seq<byte>, front: seq<byte>, plus: seq<byte>, digits: seq<byte>, back: seq<byte>, rest: seq<byte>)
    requires SizeLine(line, front, plus, digits, back, rest) && HexValue(digits) < 0x1_0000_0000_0000_0000
    ensures SizeOf(line) == Some(HexValue(digits))
  {
    var cs :| AllWhite(cs) && EncodeAll(cs) == front;
    var ds :| AllWhite(ds) && EncodeAll(ds) == back;
    TokenCore(plus, digits);
    TokenAlone(cs, plus + digits, ds, rest);
    TokenRead(plus, digits);
    hide HexValue, Blank, Trim, BeforeSemicolon, Core, ParseHex;
  }

  lemma {:induction false} TokenRead(plus: seq<byte>, digits: seq<byte>)
    requires plus in {[], [43]} && digits != [] && AllHex(digits) && HexValue(digits) < 0x1_0000_0000_0000_0000
    ensures ParseHex(plus + digits) == Some(HexValue(digits))
  {
    hide HexValue;
    TokenCore(plus, digits);
    var token := plus + digits;
    if plus == [] {
      assert token == digits;
    } else {
      assert token[1..] == digits;
    }
  }

  lemma {:induction false} TokenCore(plus: seq<byte>, digits: seq<byte>)
    requires plus in {[], [43]} && digits != [] && AllHex(digits)
    ensures Core(plus + digits) && 59 !in plus + digits && (plus == [] ==> digits[0] != 43)
  {
    assert IsHex(digits[0]) && IsHex(digits[|digits| - 1]);
    assert (plus + digits)[|plus + digits| - 1] == digits[|digits| - 1];
  }
}

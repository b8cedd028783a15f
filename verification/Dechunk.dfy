/** Chunked transfer decoding of a response body (apifront.rs, dechunk; section 7.1 of RFC 9112).
    A body is a string slice, that is, UTF-8 bytes in which a slice may only begin and end between characters. */
module Dechunk {
  import opened Bytes
  import opened Utf8

  const CR: byte := 13
  const LF: byte := 10
  const SEMICOLON: byte := 59
  const PLUS: byte := 43

  /** One more than the largest usize of a 64-bit build. */
  const USIZE: nat := 0x1_0000_0000_0000_0000

  /** Slicing inside a character, or past what a usize counts, panics. */
  datatype Outcome = Text(text: seq<byte>) | Panic

  /** The place `i` lies inside a character. */
  predicate Inside(s: seq<byte>, i: nat) {
    i < |s| && Continuation(s[i])
  }

  /* ---- the size line ---- */

  predicate CrlfAt(s: seq<byte>, i: nat) {
    i + 1 < |s| && s[i] == CR && s[i + 1] == LF
  }

  /** Where the first line ending is, from `i` on. */
  function LineEndFrom(s: seq<byte>, i: nat): (r: Option<nat>)
    ensures r.Some? ==> i <= r.value && CrlfAt(s, r.value) && forall j :: i <= j < r.value ==> !CrlfAt(s, j)
    ensures r.None? ==> forall j :: i <= j ==> !CrlfAt(s, j)
    decreases |s| - i
  {
    if i + 1 >= |s| then None
    else if CrlfAt(s, i) then Some(i)
    else LineEndFrom(s, i + 1)
  }

  function LineEnd(s: seq<byte>): Option<nat> {
    LineEndFrom(s, 0)
  }

  function BeforeSemicolon(line: seq<byte>): seq<byte> {
    if line == [] || line[0] == SEMICOLON then [] else [line[0]] + BeforeSemicolon(line[1..])
  }

  predicate AsciiSpace(b: byte) {
    9 <= b <= 13 || b == 32
  }

  predicate Space2(a: byte, b: byte) {
    a == 0xC2 && (b == 0x85 || b == 0xA0)
  }

  predicate Space3(a: byte, b: byte, c: byte) {
    || (a == 0xE1 && b == 0x9A && c == 0x80)
    || (a == 0xE2 && b == 0x80 && (0x80 <= c <= 0x8A || c == 0xA8 || c == 0xA9 || c == 0xAF))
    || (a == 0xE2 && b == 0x81 && c == 0x9F)
    || (a == 0xE3 && b == 0x80 && c == 0x80)
  }

  /** How many bytes the white-space character at the front has, none meaning there is no such character. */
  function SpaceBefore(s: seq<byte>): (n: nat)
    ensures n <= |s|
  {
    if |s| >= 1 && AsciiSpace(s[0]) then 1
    else if |s| >= 2 && Space2(s[0], s[1]) then 2
    else if |s| >= 3 && Space3(s[0], s[1], s[2]) then 3
    else 0
  }

  function SpaceAfter(s: seq<byte>): (n: nat)
    ensures n <= |s|
  {
    var k := |s|;
    if k >= 1 && AsciiSpace(s[k - 1]) then 1
    else if k >= 2 && Space2(s[k - 2], s[k - 1]) then 2
    else if k >= 3 && Space3(s[k - 3], s[k - 2], s[k - 1]) then 3
    else 0
  }

  function Trim(s: seq<byte>): seq<byte>
    decreases |s|
  {
    if SpaceBefore(s) > 0 then Trim(s[SpaceBefore(s)..])
    else if SpaceAfter(s) > 0 then Trim(s[..|s| - SpaceAfter(s)])
    else s
  }

  predicate IsHex(b: byte) {
    48 <= b <= 57 || 65 <= b <= 70 || 97 <= b <= 102
  }

  function HexDigit(b: byte): nat
    requires IsHex(b)
  {
    if b <= 57 then b - 48 else if b <= 70 then b - 55 else b - 87
  }

  predicate AllHex(s: seq<byte>) {
    forall i :: 0 <= i < |s| ==> IsHex(s[i])
  }

  function HexValue(digits: seq<byte>): nat
    requires AllHex(digits)
  {
    if digits == [] then 0 else 16 * HexValue(digits[..|digits| - 1]) + HexDigit(digits[|digits| - 1])
  }

  /** A hexadecimal usize: an optional plus sign, at least one digit, no overflow. */
  function ParseHex(token: seq<byte>): Option<nat> {
    var digits := if token != [] && token[0] == PLUS then token[1..] else token;
    if digits != [] && AllHex(digits) && HexValue(digits) < USIZE then Some(HexValue(digits)) else None
  }

  function SizeOf(line: seq<byte>): Option<nat> {
    ParseHex(Trim(BeforeSemicolon(line)))
  }

  /* ---- the decoder ---- */

  function After(part: seq<byte>, rest: Outcome): Outcome {
    if rest.Text? then Text(part + rest.text) else Panic
  }

  function Skip(s: seq<byte>, n: nat): seq<byte> {
    if n <= |s| then s[n..] else []
  }

  /** The data of a chunk of `size` bytes whose line ended just before `t`, and what follows it. */
  function TakeData(t: seq<byte>, size: nat, at: nat): Outcome
    requires size > 0
    decreases |t|, 0
  {
    if at + size >= USIZE then Panic
    else if size > |t| then Text([])
    else if Inside(t, 0) || Inside(t, size) then Panic
    else After(t[..size], Unchunk(Skip(t, size + 2), at + size + 2))
  }

  /** What is decoded from the cursor on, `s` being the body from there and `at` the cursor itself. */
  function Unchunk(s: seq<byte>, at: nat): Outcome
    decreases |s|, 1
  {
    if s == [] then Text([])
    else if at > 0 && Inside(s, 0) then Panic
    else
      var line := LineEnd(s);
      if line.None? then Text([])
      else
        var size := SizeOf(s[..line.value]);
        if size.None? || size.value == 0 then Text([]) else TakeData(s[line.value + 2..], size.value, at + line.value + 2)
  }

  /** The two definitions seen from the whole body. */
  lemma {:induction false} AtCursor(body: seq<byte>, cursor: nat)
    requires cursor < |body|
    ensures Unchunk(Skip(body, cursor), cursor) ==
      if cursor > 0 && Inside(body, cursor) then Panic
      else
        var line := LineEnd(body[cursor..]);
        if line.None? then Text([])
        else
          var size := SizeOf(body[cursor..cursor + line.value]);
          var start := cursor + line.value + 2;
          if size.None? || size.value == 0 then Text([]) else TakeData(Skip(body, start), size.value, start)
  {
    hide SizeOf, TakeData;
    var line := LineEnd(body[cursor..]);
    if line.Some? {
      assert body[cursor..cursor + line.value] == body[cursor..][..line.value];
      assert body[cursor..][line.value + 2..] == body[cursor + line.value + 2..];
    }
  }

  lemma {:induction false} AtData(body: seq<byte>, start: nat, size: nat)
    requires start <= |body| && size > 0
    ensures var end := start + size;
      TakeData(Skip(body, start), size, start) ==
        if end >= USIZE then Panic
        else if end > |body| then Text([])
        else if Inside(body, start) || Inside(body, end) then Panic
        else After(body[start..end], Unchunk(Skip(body, end + 2), end + 2))
  {
    hide Unchunk;
    var t, end := body[start..], start + size;
    if end <= |body| {
      assert t[..size] == body[start..end] && Skip(t, size + 2) == Skip(body, end + 2);
    }
  }

  /** The loop, which ends because its cursor moves past at least a line ending and one byte each time round. */
  method Decode(body: seq<byte>) returns (r: Outcome)
    ensures r == Unchunk(body, 0)
  {
    hide Unchunk, TakeData, SizeOf, Inside;
    var out, cursor := [], 0;
    assert Skip(body, 0) == body && After([], Unchunk(body, 0)) == Unchunk(body, 0);
    while cursor < |body|
      invariant Unchunk(body, 0) == After(out, Unchunk(Skip(body, cursor), cursor))
      decreases |body| - cursor
    {
      AtCursor(body, cursor);
      if cursor > 0 && Inside(body, cursor) {
        return Panic;
      }
      var offset := LineEnd(body[cursor..]);
      if offset.None? {
        break;
      }
      var lineEnd := cursor + offset.value;
      var size := SizeOf(body[cursor..lineEnd]);
      if size.None? || size.value == 0 {
        break;
      }
      var start := lineEnd + 2;
      var end := start + size.value;
      AtData(body, start, size.value);
      if end >= USIZE {
        return Panic;
      }
      if end > |body| {
        break;
      }
      if Inside(body, start) || Inside(body, end) {
        return Panic;
      }
      AfterBoth(out, body[start..end], Unchunk(Skip(body, end + 2), end + 2));
      out := out + body[start..end];
      cursor := end + 2;
    }
    if cursor >= |body| {
      NothingLeft(body, cursor);
    }
    r := Text(out);
    assert out + [] == out;
  }

  lemma {:induction false} NothingLeft(body: seq<byte>, cursor: nat)
    requires cursor >= |body|
    ensures Unchunk(Skip(body, cursor), cursor) == Text([])
  {
  }

  lemma {:induction false} AfterBoth(a: seq<byte>, b: seq<byte>, rest: Outcome)
    ensures After(a + b, rest) == After(a, After(b, rest))
  {
    if rest.Text? {
      assert (a + b) + rest.text == a + (b + rest.text);
    }
  }
}

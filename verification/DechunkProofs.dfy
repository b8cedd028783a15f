/** Chunked coding and its decoding: whole, cut short, and with sizes that do not fit the text. */
module DechunkProofs {
  import opened Bytes
  import opened Utf8
  import opened Dechunk

  /** A chunk as a server writes it: its size in hexadecimal, blanks, an extension, the data. */
  datatype Chunk = Chunk(digits: seq<byte>, blanks: seq<byte>, extension: seq<byte>, data: seq<byte>)

  predicate ValidLine(digits: seq<byte>, blanks: seq<byte>, extension: seq<byte>) {
    && digits != [] && AllHex(digits)
    && (forall i :: 0 <= i < |blanks| ==> blanks[i] == 9 || blanks[i] == 32)
    && (extension == [] || extension[0] == SEMICOLON) && CR !in extension
  }

  /** Data is a non-empty string, so it does not begin inside a character. */
  predicate ValidChunk(c: Chunk) {
    && ValidLine(c.digits, c.blanks, c.extension)
    && HexValue(c.digits) == |c.data| > 0 && !Continuation(c.data[0])
  }

  predicate ValidChunks(cs: seq<Chunk>) {
    forall i :: 0 <= i < |cs| ==> ValidChunk(cs[i])
  }

  function Line(c: Chunk): seq<byte> {
    c.digits + c.blanks + c.extension
  }

  function EncodeChunk(c: Chunk): seq<byte> {
    Line(c) + [CR, LF] + c.data + [CR, LF]
  }

  function Encode(cs: seq<Chunk>): seq<byte> {
    if cs == [] then [] else EncodeChunk(cs[0]) + Encode(cs[1..])
  }

  function Data(cs: seq<Chunk>): seq<byte> {
    if cs == [] then [] else cs[0].data + Data(cs[1..])
  }

  /** How many chunks have all their data among the first n bytes of the coding. */
  function Complete(cs: seq<Chunk>, n: int): (k: nat)
    ensures k <= |cs|
  {
    if cs == [] || n < |Line(cs[0])| + 2 + |cs[0].data| then 0
    else 1 + Complete(cs[1..], n - |EncodeChunk(cs[0])|)
  }

  /** The closing chunk: a line of size zero, then a trailer section and anything after it. */
  predicate ValidEnd(last: Chunk) {
    ValidLine(last.digits, last.blanks, last.extension) && HexValue(last.digits) == 0
  }

  function Ending(last: Chunk): seq<byte> {
    Line(last) + [CR, LF] + last.data
  }

  /* ---- the size line reads back ---- */

  lemma {:induction false} TokenOf(digits: seq<byte>, blanks: seq<byte>, extension: seq<byte>)
    requires ValidLine(digits, blanks, extension)
    ensures BeforeSemicolon(digits + blanks + extension) == digits + blanks
  {
    BeforeExtension(digits + blanks, extension);
  }

  lemma {:induction false} BeforeExtension(token: seq<byte>, extension: seq<byte>)
    requires SEMICOLON !in token && (extension == [] || extension[0] == SEMICOLON)
    ensures BeforeSemicolon(token + extension) == token
  {
    if token == [] {
      assert token + extension == extension;
    } else {
      assert (token + extension)[1..] == token[1..] + extension;
      BeforeExtension(token[1..], extension);
    }
  }

  lemma {:induction false} TrimBlanks(digits: seq<byte>, blanks: seq<byte>)
    requires digits != [] && AllHex(digits)
    requires forall i :: 0 <= i < |blanks| ==> blanks[i] == 9 || blanks[i] == 32
    ensures Trim(digits + blanks) == digits
  {
    var s := digits + blanks;
    assert IsHex(s[0]);
    if blanks == [] {
      assert s == digits && IsHex(s[|s| - 1]);
    } else {
      assert s[|s| - 1] == blanks[|blanks| - 1];
      assert SpaceBefore(s) == 0 && SpaceAfter(s) == 1;
      assert Trim(s) == Trim(s[..|s| - 1]);
      hide Trim;
      assert s[..|s| - 1] == digits + blanks[..|blanks| - 1];
      TrimBlanks(digits, blanks[..|blanks| - 1]);
    }
  }

  lemma {:induction false} SizeReadsBack(digits: seq<byte>, blanks: seq<byte>, extension: seq<byte>)
    requires ValidLine(digits, blanks, extension)
    ensures SizeOf(digits + blanks + extension) == if HexValue(digits) < USIZE then Some(HexValue(digits)) else None
  {
    TokenOf(digits, blanks, extension);
    TrimBlanks(digits, blanks);
    assert IsHex(digits[0]);
  }

  lemma {:induction false} LineEndFound(line: seq<byte>, t: seq<byte>)
    requires CR !in line
    ensures LineEnd(line + ([CR, LF] + t)) == Some(|line|)
  {
    var s := line + ([CR, LF] + t);
    assert CrlfAt(s, |line|);
    assert forall i :: 0 <= i < |line| ==> s[i] == line[i];
  }

  /** A line of which the end has not arrived. */
  lemma {:induction false} NoLine(line: seq<byte>, s: seq<byte>, at: nat)
    requires CR !in line && (s == line || s == line + [CR]) && (line == [] || !Continuation(line[0]))
    ensures Unchunk(s, at) == Text([])
  {
    assert forall i :: 0 <= i < |line| ==> s[i] == line[i];
    assert LineEnd(s).None?;
    hide SizeOf, TakeData;
  }

  lemma {:induction false} LineParts(c: Chunk)
    requires ValidLine(c.digits, c.blanks, c.extension)
    ensures Line(c) != [] && !Continuation(Line(c)[0]) && CR !in Line(c) && AllHex(c.digits)
    ensures HexValue(c.digits) < USIZE ==> SizeOf(Line(c)) == Some(HexValue(c.digits))
    ensures HexValue(c.digits) >= USIZE ==> SizeOf(Line(c)) == None
  {
    SizeReadsBack(c.digits, c.blanks, c.extension);
    assert IsHex(c.digits[0]);
    hide SizeOf;
  }

  lemma {:induction false} AtSize(s: seq<byte>, k: nat, size: nat, at: nat)
    requires s != [] && !Inside(s, 0) && LineEnd(s) == Some(k) && SizeOf(s[..k]) == Some(size)
    ensures Unchunk(s, at) == if size == 0 then Text([]) else TakeData(s[k + 2..], size, at + k + 2)
  {
    hide LineEnd, SizeOf, TakeData;
  }

  /** The decoder at a size line. */
  lemma {:induction false} AtLine(c: Chunk, t: seq<byte>, at: nat)
    requires ValidLine(c.digits, c.blanks, c.extension) && HexValue(c.digits) < USIZE
    ensures Unchunk(Line(c) + ([CR, LF] + t), at) ==
      if HexValue(c.digits) == 0 then Text([]) else TakeData(t, HexValue(c.digits), at + |Line(c)| + 2)
  {
    hide *;
    LineParts(c);
    assert AllHex(c.digits);
    AtSized(Line(c), HexValue(c.digits), t, at);
  }

  lemma {:induction false} AtSized(line: seq<byte>, size: nat, t: seq<byte>, at: nat)
    requires line != [] && CR !in line && !Continuation(line[0]) && SizeOf(line) == Some(size)
    ensures Unchunk(line + ([CR, LF] + t), at) == if size == 0 then Text([]) else TakeData(t, size, at + |line| + 2)
  {
    hide SizeOf, LineEnd, Unchunk, TakeData;
    var s := line + ([CR, LF] + t);
    LineEndFound(line, t);
    SplitLine(line, t);
    AtSize(s, |line|, size, at);
  }

  lemma {:induction false} SplitLine(line: seq<byte>, t: seq<byte>)
    requires line != [] && !Continuation(line[0])
    ensures var s := line + ([CR, LF] + t); s[..|line|] == line && s[|line| + 2..] == t && !Inside(s, 0)
  {
  }

  /** Data that has arrived whole, with whatever the decoder steps over after it. */
  lemma {:induction false} WholeData(data: seq<byte>, gap: seq<byte>, rest: seq<byte>, at: nat)
    requires data != [] && !Continuation(data[0]) && at + |data| < USIZE
    requires |gap| <= 2 && (gap != [] ==> gap[0] == CR) && (|gap| < 2 ==> rest == [])
    ensures TakeData(data + (gap + rest), |data|, at) == After(data, Unchunk(rest, at + |data| + 2))
  {
    hide Unchunk;
    var t := data + (gap + rest);
    assert t[..|data|] == data && Skip(t, |data| + 2) == rest;
  }

  /** One coded chunk yields its data. */
  lemma {:induction false} ChunkStep(c: Chunk, rest: seq<byte>, at: nat)
    requires ValidChunk(c) && at + |EncodeChunk(c)| < USIZE
    ensures Unchunk(EncodeChunk(c) + rest, at) == After(c.data, Unchunk(rest, at + |EncodeChunk(c)|))
  {
    var t := c.data + ([CR, LF] + rest);
    hide Unchunk, TakeData, Line, HexValue;
    AtLine(c, t, at);
    WholeData(c.data, [CR, LF], rest, at + |Line(c)| + 2);
    assert EncodeChunk(c) + rest == Line(c) + ([CR, LF] + t);
  }

  lemma {:induction false} NothingBefore(o: Outcome)
    ensures After([], o) == o
  {
    if o.Text? {
      assert [] + o.text == o.text;
    }
  }

  /** Coded chunks yield their data, and then whatever follows them is decoded. */
  lemma {:induction false} ChunksStep(cs: seq<Chunk>, rest: seq<byte>, at: nat)
    requires ValidChunks(cs) && at + |Encode(cs)| < USIZE
    ensures Unchunk(Encode(cs) + rest, at) == After(Data(cs), Unchunk(rest, at + |Encode(cs)|))
  {
    hide Unchunk, EncodeChunk, ValidChunk;
    if cs == [] {
      assert Encode(cs) + rest == rest;
      NothingBefore(Unchunk(rest, at));
    } else {
      var c, more := cs[0], Encode(cs[1..]) + rest;
      assert Encode(cs) + rest == EncodeChunk(c) + more;
      ChunkStep(c, more, at);
      ChunksStep(cs[1..], rest, at + |EncodeChunk(c)|);
      AfterBoth(c.data, Data(cs[1..]), Unchunk(rest, at + |Encode(cs)|));
    }
  }

  /** Decoding undoes the coding: any chunks, sizes spelt in any way, extensions and trailers ignored. */
  lemma {:induction false} Inverts(cs: seq<Chunk>, last: Chunk)
    requires ValidChunks(cs) && ValidEnd(last) && |Encode(cs) + Ending(last)| < USIZE
    ensures Unchunk(Encode(cs) + Ending(last), 0) == Text(Data(cs))
  {
    hide Unchunk, Encode, Data, ValidChunks, Line, TakeData;
    ChunksStep(cs, Ending(last), 0);
    AtLine(last, last.data, |Encode(cs)|);
    assert Ending(last) == Line(last) + ([CR, LF] + last.data);
    assert Data(cs) + [] == Data(cs);
  }

  /* ---- cut short between characters ---- */

  lemma {:induction false} PrefixLine(line: seq<byte>, n: nat)
    requires CR !in line && line != [] && !Continuation(line[0]) && n <= |line|
    ensures CR !in line[..n] && (line[..n] != [] ==> !Continuation(line[..n][0]))
  {
  }

  /** The beginning of a coded chunk of which not all has arrived. */
  lemma {:induction false} CutChunk(c: Chunk, n: nat, at: nat)
    requires ValidChunk(c) && n <= |EncodeChunk(c)| && at + |EncodeChunk(c)| < USIZE
    ensures Unchunk(EncodeChunk(c)[..n], at) == Text(if n < |Line(c)| + 2 + |c.data| then [] else c.data)
  {
    hide *;
    ChunkParts(c);
    LineParts(c);
    EncodedAs(c);
    var line, t := Line(c), c.data + [CR, LF];
    if n <= |line| + 1 {
      CutLine(line, t, n, at);
    } else {
      var m := n - |line| - 2;
      CutPast(line, t, m);
      CutData(c, m, at);
      AtLine(c, t[..m], at);
    }
  }

  lemma {:induction false} ChunkParts(c: Chunk)
    requires ValidChunk(c)
    ensures ValidLine(c.digits, c.blanks, c.extension) && AllHex(c.digits) && HexValue(c.digits) == |c.data| > 0
    ensures |EncodeChunk(c)| == |Line(c)| + 2 + |c.data| + 2
  {
    hide HexValue, Line;
  }

  lemma {:induction false} EncodedAs(c: Chunk)
    ensures EncodeChunk(c) == Line(c) + ([CR, LF] + (c.data + [CR, LF]))
  {
    hide Line;
  }

  lemma {:induction false} CutPast(line: seq<byte>, t: seq<byte>, m: nat)
    requires m <= |t|
    ensures (line + ([CR, LF] + t))[..|line| + 2 + m] == line + ([CR, LF] + t[..m])
  {
  }

  /** A line cut before its end. */
  lemma {:induction false} CutLine(line: seq<byte>, t: seq<byte>, n: nat, at: nat)
    requires line != [] && CR !in line && !Continuation(line[0]) && n <= |line| + 1
    ensures Unchunk((line + ([CR, LF] + t))[..n], at) == Text([])
  {
    hide Unchunk;
    var s := (line + ([CR, LF] + t))[..n];
    if n <= |line| {
      PrefixLine(line, n);
      assert s == line[..n];
      NoLine(line[..n], s, at);
    } else {
      assert s == line + [CR];
      NoLine(line, s, at);
    }
  }

  lemma {:induction false} CutData(c: Chunk, m: nat, at: nat)
    requires ValidChunk(c) && m <= |c.data| + 2 && at + |EncodeChunk(c)| < USIZE
    ensures TakeData((c.data + [CR, LF])[..m], |c.data|, at + |Line(c)| + 2) == Text(if m < |c.data| then [] else c.data)
  {
    hide Unchunk;
    var t, start := (c.data + [CR, LF])[..m], at + |Line(c)| + 2;
    if m >= |c.data| {
      var gap := [CR, LF][..m - |c.data|];
      assert t == c.data + (gap + []);
      WholeData(c.data, gap, [], start);
      NothingThere(start + |c.data| + 2);
      assert c.data + [] == c.data;
    }
  }

  lemma {:induction false} NothingThere(at: nat)
    ensures Unchunk([], at) == Text([])
  {
  }

  /** The closing line gives nothing, wherever it is cut. */
  lemma {:induction false} CutEnding(last: Chunk, n: nat, at: nat)
    requires ValidEnd(last) && n <= |Ending(last)|
    ensures Unchunk(Ending(last)[..n], at) == Text([])
  {
    hide *;
    EndingParts(last);
    LineParts(last);
    var line, t := Line(last), last.data;
    if n <= |line| + 1 {
      CutLine(line, t, n, at);
    } else {
      var m := n - |line| - 2;
      CutPast(line, t, m);
      AtLine(last, t[..m], at);
    }
  }

  lemma {:induction false} EndingParts(last: Chunk)
    requires ValidEnd(last)
    ensures ValidLine(last.digits, last.blanks, last.extension) && AllHex(last.digits) && HexValue(last.digits) == 0 < USIZE
    ensures Ending(last) == Line(last) + ([CR, LF] + last.data)
  {
    hide HexValue, Line;
  }

  lemma {:induction false} CutFrom(cs: seq<Chunk>, last: Chunk, n: nat, at: nat)
    requires ValidChunks(cs) && ValidEnd(last) && n <= |Encode(cs) + Ending(last)| && at + |Encode(cs) + Ending(last)| < USIZE
    ensures Unchunk((Encode(cs) + Ending(last))[..n], at) == Text(Data(cs[..Complete(cs, n)]))
  {
    hide Unchunk, EncodeChunk, Line, Ending, ValidEnd, ValidChunk;
    if cs == [] {
      assert Encode(cs) + Ending(last) == Ending(last);
      CutEnding(last, n, at);
    } else {
      var c, more := cs[0], Encode(cs[1..]) + Ending(last);
      EncodedLength(c);
      assert Encode(cs) + Ending(last) == EncodeChunk(c) + more;
      CompleteStep(cs, n);
      if n < |EncodeChunk(c)| {
        assert (EncodeChunk(c) + more)[..n] == EncodeChunk(c)[..n];
        CutChunk(c, n, at);
        NoneComplete(cs[1..], n - |EncodeChunk(c)|);
      } else {
        var m := n - |EncodeChunk(c)|;
        assert (EncodeChunk(c) + more)[..n] == EncodeChunk(c) + more[..m];
        ChunkStep(c, more[..m], at);
        CutFrom(cs[1..], last, m, at + |EncodeChunk(c)|);
      }
    }
  }

  lemma {:induction false} EncodedLength(c: Chunk)
    ensures |EncodeChunk(c)| == |Line(c)| + 2 + |c.data| + 2
  {
    hide Line;
  }

  lemma {:induction false} NoneComplete(cs: seq<Chunk>, n: int)
    requires n <= 0
    ensures Complete(cs, n) == 0
  {
  }

  lemma {:induction false} CompleteStep(cs: seq<Chunk>, n: int)
    requires cs != []
    ensures Data(cs[..Complete(cs, n)]) ==
      if n < |Line(cs[0])| + 2 + |cs[0].data| then []
      else cs[0].data + Data(cs[1..][..Complete(cs[1..], n - |EncodeChunk(cs[0])|)])
  {
    hide EncodeChunk, Line;
    var k := Complete(cs[1..], n - |EncodeChunk(cs[0])|);
    assert cs[..k + 1][1..] == cs[1..][..k];
  }

  /** Of a body cut anywhere between characters, exactly the chunks whose data arrived whole are returned, in order. */
  lemma {:induction false} Truncated(cs: seq<Chunk>, last: Chunk, n: nat)
    requires ValidChunks(cs) && ValidEnd(last) && n <= |Encode(cs) + Ending(last)| < USIZE
    ensures Unchunk((Encode(cs) + Ending(last))[..n], 0) == Text(Data(cs[..Complete(cs, n)]))
  {
    CutFrom(cs, last, n, 0);
  }

  /* ---- sizes that do not fit ---- */

  /** After any valid chunks, a size `n` in front of a text `t` makes the decoder panic exactly when the end of the data
      is past what a usize counts, when it lies inside a character, when the place two bytes further on does, or when
      what is left from there on makes it panic. */
  lemma {:induction false} PanicsAfterChunks(cs: seq<Chunk>, c: Chunk, t: seq<byte>)
    requires ValidChunks(cs) && ValidLine(c.digits, c.blanks, c.extension) && 0 < HexValue(c.digits) < USIZE
    requires |Encode(cs)| < USIZE && !Inside(t, 0)
    ensures var n, start := HexValue(c.digits), |Encode(cs)| + |Line(c)| + 2;
      Unchunk(Encode(cs) + (Line(c) + ([CR, LF] + t)), 0) == Panic <==>
        (start + n >= USIZE || Inside(t, n) || Inside(t, n + 2) || (n <= |t| && Unchunk(Skip(t, n + 2), start + n + 2) == Panic))
  {
    hide *;
    LineParts(c);
    var n, start := HexValue(c.digits), |Encode(cs)| + |Line(c)| + 2;
    DataPanics(t, n, start);
    ChunksStep(cs, Line(c) + ([CR, LF] + t), 0);
    AtLine(c, t, |Encode(cs)|);
    PanicAfter(Data(cs), TakeData(t, n, start));
  }

  lemma {:induction false} PanicAfter(part: seq<byte>, rest: Outcome)
    ensures After(part, rest) == Panic <==> rest == Panic
  {
  }

  lemma {:induction false} DataPanics(t: seq<byte>, n: nat, start: nat)
    requires n > 0 && !Inside(t, 0)
    ensures TakeData(t, n, start) == Panic <==>
      (start + n >= USIZE || Inside(t, n) || Inside(t, n + 2) || (n <= |t| && Unchunk(Skip(t, n + 2), start + n + 2) == Panic))
  {
    if n <= |t| {
      InsidePanics(Skip(t, n + 2), start + n + 2);
    }
    hide Unchunk;
  }

  lemma {:induction false} InsidePanics(s: seq<byte>, at: nat)
    requires at > 0
    ensures Inside(s, 0) ==> Unchunk(s, at) == Panic
  {
    hide LineEnd, SizeOf, TakeData;
  }

  function Fs(k: nat): seq<byte> {
    if k == 0 then [] else Fs(k - 1) + [102]
  }

  function Pow16(k: nat): nat {
    if k == 0 then 1 else 16 * Pow16(k - 1)
  }

  lemma {:induction false} FsValue(k: nat)
    ensures AllHex(Fs(k)) && HexValue(Fs(k)) == Pow16(k) - 1 && |Fs(k)| == k
  {
    if k > 0 {
      FsValue(k - 1);
      assert Fs(k)[..k - 1] == Fs(k - 1);
    }
  }

  /** Three of these, at an input each: a size of 2^64 - 1; a chunk that ends between two characters, the second of
      which the two skipped bytes cut; and a chunk that ends inside one. */
  lemma {:induction false} PanicsAt()
    ensures Unchunk(Fs(16) + [CR, LF, 97], 0) == Panic
    ensures Unchunk([49, CR, LF, 97, 0xE2, 0x82, 0xAC], 0) == Panic
    ensures Unchunk([49, CR, LF, 0xE2, 0x82, 0xAC], 0) == Panic
  {
    HugeSize();
    hide Unchunk, Fs;
    PanicsFirst(Chunk(Fs(16), [], [], []), [97]);
    assert Fs(16) + [CR, LF, 97] == Fs(16) + ([CR, LF] + [97]);
    assert [49][..0] == [] && HexValue([49]) == 1;
    hide HexValue;
    PanicsFirst(Chunk([49], [], [], []), [97, 0xE2, 0x82, 0xAC]);
    assert [49, CR, LF, 97, 0xE2, 0x82, 0xAC] == [49] + ([CR, LF] + [97, 0xE2, 0x82, 0xAC]);
    PanicsFirst(Chunk([49], [], [], []), [0xE2, 0x82, 0xAC]);
    assert [49, CR, LF, 0xE2, 0x82, 0xAC] == [49] + ([CR, LF] + [0xE2, 0x82, 0xAC]);
  }

  lemma {:induction false} HugeSize()
    ensures AllHex(Fs(16)) && HexValue(Fs(16)) == USIZE - 1 && |Fs(16)| == 16
  {
    hide *;
    FsValue(16);
    Sixteen();
  }

  lemma {:induction false} Sixteen()
    ensures Pow16(16) == USIZE
  {
    assert Pow16(8) == 0x1_0000_0000;
    Pow16Sum(8, 8);
    hide Pow16;
  }

  lemma {:induction false} Pow16Sum(a: nat, b: nat)
    ensures Pow16(a + b) == Pow16(a) * Pow16(b)
  {
    if a > 0 {
      Pow16Sum(a - 1, b);
    }
  }

  lemma {:induction false} PanicsFirst(c: Chunk, t: seq<byte>)
    requires ValidLine(c.digits, [], []) && c.blanks == [] && c.extension == [] && 0 < HexValue(c.digits) < USIZE && !Inside(t, 0)
    requires var n := HexValue(c.digits); |c.digits| + 2 + n >= USIZE || Inside(t, n) || Inside(t, n + 2)
    ensures Unchunk(c.digits + ([CR, LF] + t), 0) == Panic
  {
    PanicsAfterChunks([], c, t);
    assert Line(c) == c.digits && [] + (Line(c) + ([CR, LF] + t)) == c.digits + ([CR, LF] + t);
  }
}

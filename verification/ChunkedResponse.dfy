/** What chunked decoding makes of the bytes a server sends (apifront.rs, parse_response): the text is made of the raw
    bytes first, and every size is counted in them. */
module ChunkedResponse {
  import opened Bytes
  import opened Utf8
  import opened Dechunk
  import opened DechunkProofs

  /** A chunk whose data is a text of its own. */
  predicate TextChunk(c: Chunk) {
    ValidLine(c.digits, c.blanks, c.extension) && HexValue(c.digits) == |c.data| > 0 && WellFormed(c.data)
  }

  predicate TextChunks(cs: seq<Chunk>) {
    forall i :: 0 <= i < |cs| ==> TextChunk(cs[i])
  }

  /** The chunk as it stands in the text. */
  function Readable(c: Chunk): Chunk {
    c.(extension := Lossy(c.extension))
  }

  function AllReadable(cs: seq<Chunk>): seq<Chunk> {
    if cs == [] then [] else [Readable(cs[0])] + AllReadable(cs[1..])
  }

  lemma {:induction false} LossyLength(s: seq<byte>)
    ensures |Lossy(s)| <= 3 * |s|
  {
    if s != [] {
      LossyLength(s[Taken(s)..]);
      hide Matched, Lossy;
      assert |Emitted(s)| <= 3 * Taken(s);
    }
  }

  lemma {:induction false} LineIsText(c: Chunk)
    requires ValidLine(c.digits, c.blanks, c.extension)
    ensures Line(Readable(c)) == Lossy(Line(c)) && ValidLine(c.digits, c.blanks, Lossy(c.extension))
  {
    AsciiWell(c.digits + c.blanks);
    LossyWell(c.digits + c.blanks, c.extension);
    LossyKeepsAscii(c.extension, CR);
    hide Lossy, WellFormed;
    if c.extension != [] {
      LossyFront(c.extension);
    } else {
      LossyNothing();
    }
  }

  lemma {:induction false} LossyNothing()
    ensures Lossy([]) == []
  {
  }

  lemma {:induction false} ReadLf(t: seq<byte>)
    ensures Lossy([LF] + t) == [LF] + Lossy(t)
  {
    LossyAscii([], LF, t);
    LossyNothing();
    hide Lossy;
    assert [] + ([LF] + t) == [LF] + t && [] + ([LF] + Lossy(t)) == [LF] + Lossy(t);
  }

  lemma {:induction false} CrThenLf(s: seq<byte>, t: seq<byte>)
    ensures s + ([CR, LF] + t) == s + ([CR] + ([LF] + t))
  {
    assert [CR, LF] + t == [CR] + ([LF] + t);
  }

  lemma {:induction false} ReadCrlf(s: seq<byte>, t: seq<byte>)
    ensures Lossy(s + ([CR, LF] + t)) == Lossy(s) + ([CR, LF] + Lossy(t))
  {
    assert CR < 0x80;
    hide *;
    CrThenLf(s, t);
    LossyAscii(s, CR, [LF] + t);
    ReadLf(t);
    CrThenLf(Lossy(s), Lossy(t));
  }

  lemma {:induction false} ReadableParts(c: Chunk)
    ensures Readable(c).digits == c.digits && Readable(c).blanks == c.blanks && Readable(c).extension == Lossy(c.extension)
    ensures Readable(c).data == c.data
  {
    hide Lossy;
  }

  lemma {:induction false} TextIsValid(c: Chunk)
    requires TextChunk(c)
    ensures ValidChunk(Readable(c)) && ValidLine(c.digits, c.blanks, c.extension) && AllHex(c.digits) && HexValue(c.digits) == |c.data| > 0
    ensures WellFormed(c.data) && Readable(c).data == c.data && Line(Readable(c)) == Lossy(Line(c))
    ensures Line(c) != [] && Line(c)[0] < 0x80
    ensures ValidLine(c.digits, c.blanks, Readable(c).extension) && Readable(c).digits == c.digits && Readable(c).blanks == c.blanks
  {
    LineIsText(c);
    WellFormedFront(c.data);
    assert IsHex(Line(c)[0]);
    hide Line, HexValue, Lossy;
  }

  /** A chunk whose data is a text of its own reads as itself. */
  lemma {:induction false} ReadChunk(c: Chunk, rest: seq<byte>)
    requires TextChunk(c)
    ensures Lossy(EncodeChunk(c) + rest) == EncodeChunk(Readable(c)) + Lossy(rest)
  {
    hide *;
    TextIsValid(c);
    Encoded(c, rest);
    Encoded(Readable(c), Lossy(rest));
    ReadCrlf(Line(c), c.data + ([CR, LF] + rest));
    LossyWell(c.data, [CR, LF] + rest);
    ReadCrlf([], rest);
    LossyNothing();
    assert [] + ([CR, LF] + rest) == [CR, LF] + rest;
    assert [] + ([CR, LF] + Lossy(rest)) == [CR, LF] + Lossy(rest);
  }

  lemma {:induction false} Encoded(c: Chunk, rest: seq<byte>)
    ensures EncodeChunk(c) + rest == Line(c) + ([CR, LF] + (c.data + ([CR, LF] + rest)))
  {
    hide Line;
  }

  lemma {:induction false} ReadChunks(cs: seq<Chunk>, rest: seq<byte>)
    requires TextChunks(cs)
    ensures Lossy(Encode(cs) + rest) == Encode(AllReadable(cs)) + Lossy(rest)
    ensures ValidChunks(AllReadable(cs)) && Data(AllReadable(cs)) == Data(cs)
  {
    hide Lossy, EncodeChunk, ValidChunk, TextChunk, Readable;
    if cs == [] {
      assert Encode(cs) + rest == rest;
      assert Encode(AllReadable(cs)) + Lossy(rest) == Lossy(rest);
    } else {
      ReadFirst(cs, rest);
      ReadChunks(cs[1..], rest);
      hide Encode, Data, AllReadable;
      FirstReadable(cs, Lossy(rest));
    }
  }

  lemma {:induction false} ReadFirst(cs: seq<Chunk>, rest: seq<byte>)
    requires cs != [] && TextChunks(cs)
    ensures Lossy(Encode(cs) + rest) == EncodeChunk(Readable(cs[0])) + Lossy(Encode(cs[1..]) + rest)
    ensures ValidChunk(Readable(cs[0]))
  {
    FirstChunk(cs, rest);
    hide *;
    TextIsValid(cs[0]);
    ReadChunk(cs[0], Encode(cs[1..]) + rest);
  }

  lemma {:induction false} FirstReadable(cs: seq<Chunk>, tail: seq<byte>)
    requires cs != []
    ensures Encode(AllReadable(cs)) + tail == EncodeChunk(Readable(cs[0])) + (Encode(AllReadable(cs[1..])) + tail)
    ensures Data(AllReadable(cs)) == cs[0].data + Data(AllReadable(cs[1..])) && Data(cs) == cs[0].data + Data(cs[1..])
    ensures ValidChunks(AllReadable(cs)) <==> ValidChunk(Readable(cs[0])) && ValidChunks(AllReadable(cs[1..]))
  {
    ReadableParts(cs[0]);
    hide EncodeChunk, Readable, ValidChunk;
    assert AllReadable(cs)[1..] == AllReadable(cs[1..]);
    ValidFirst(AllReadable(cs));
  }

  lemma {:induction false} ValidFirst(cs: seq<Chunk>)
    requires cs != []
    ensures ValidChunks(cs) <==> ValidChunk(cs[0]) && ValidChunks(cs[1..])
  {
    hide ValidChunk;
    assert forall i :: 0 <= i < |cs| - 1 ==> cs[i + 1] == cs[1..][i];
  }

  /** A response whose every chunk is a text of its own is read as the text sent. */
  lemma {:induction false} ResponseInverts(cs: seq<Chunk>, last: Chunk)
    requires TextChunks(cs) && ValidEnd(last) && 3 * |Encode(cs) + Ending(last)| < USIZE
    ensures Unchunk(Lossy(Encode(cs) + Ending(last)), 0) == Text(Data(cs))
  {
    LossyLength(Encode(cs) + Ending(last));
    ReadChunks(cs, Ending(last));
    ReadEnding(last);
    hide Lossy, Unchunk, Encode, Data, Ending, ValidEnd, TextChunks, ValidChunks;
    Inverts(AllReadable(cs), Readable(last).(data := Lossy(last.data)));
  }

  lemma {:induction false} ReadEnding(last: Chunk)
    requires ValidEnd(last)
    ensures var read := Readable(last).(data := Lossy(last.data)); ValidEnd(read) && Lossy(Ending(last)) == Ending(read)
  {
    hide *;
    EndingParts(last);
    LineIsText(last);
    ReadableParts(last);
    ReadCrlf(Line(last), last.data);
    var r := Readable(last);
    assert ValidLine(r.digits, r.blanks, r.extension);
    assert HexValue(r.digits) == 0;
    EndingAs(Readable(last), Lossy(last.data));
  }

  lemma {:induction false} EndingAs(c: Chunk, data: seq<byte>)
    requires ValidLine(c.digits, c.blanks, c.extension) && HexValue(c.digits) == 0
    ensures ValidEnd(c.(data := data)) && Ending(c.(data := data)) == Line(c) + ([CR, LF] + data)
  {
    SameLine(c, data);
    hide Line, HexValue;
  }

  lemma {:induction false} SameLine(c: Chunk, data: seq<byte>)
    ensures Line(c.(data := data)) == Line(c)
  {
  }

  /* ---- a response cut short ---- */

  /** When the cut after `n` bytes falls inside a character of the data, how far before the end of that data the
      character begins; none otherwise. */
  function CutGap(cs: seq<Chunk>, n: int): (g: nat)
    requires TextChunks(cs)
  {
    if cs == [] then 0
    else
      var d, m := cs[0].data, n - |Line(cs[0])| - 2;
      if m >= |d| then CutGap(cs[1..], n - |EncodeChunk(cs[0])|)
      else if m <= 0 then 0
      else if CharStart(d, m) == m then 0 else |d| - CharStart(d, m)
  }

  lemma {:induction false} GapInside(cs: seq<Chunk>, n: int)
    requires TextChunks(cs) && CutGap(cs, n) > 0
    ensures Complete(cs, n) < |cs| && 2 <= CutGap(cs, n) <= |cs[Complete(cs, n)].data|
  {
    hide Line, EncodeChunk, TextChunk, CharStart;
    var m := n - |Line(cs[0])| - 2;
    if m >= |cs[0].data| {
      GapInside(cs[1..], n - |EncodeChunk(cs[0])|);
    }
  }

  /** What is left of data of which `m` bytes arrived. */
  function CutText(d: seq<byte>, m: nat): Outcome
    requires WellFormed(d) && m <= |d|
  {
    var g := if m == |d| || CharStart(d, m) == m then 0 else |d| - CharStart(d, m);
    if m == |d| then Text(d)
    else if g == 2 then Panic
    else if g == 3 then Text(d[..|d| - 3] + REPLACEMENT)
    else Text([])
  }

  lemma {:induction false} CutTextData(d: seq<byte>, m: nat, at: nat)
    requires WellFormed(d) && m < |d| && at + |d| < USIZE
    ensures TakeData(Lossy(d[..m]), |d|, at) == CutText(d, m)
  {
    var s, t := CharStart(d, m), Lossy(d[..m]);
    LossyCut(d, m);
    if m > 0 {
      LossyFront(d[..m]);
    }
    hide Lossy, CharStart, WellFormed, Unchunk;
    if s < m {
      var g := |d| - s;
      assert |t| == s + 3;
      if g == 2 {
        assert t[|d|] == REPLACEMENT[2];
      } else if g == 3 {
        NothingThere(at + |d| + 2);
        assert t[..|d|] == t && Skip(t, |d| + 2) == [] && t + [] == t;
      }
    }
  }

  lemma {:induction false} CutTextChunk(c: Chunk, n: nat, at: nat)
    requires TextChunk(c) && n <= |EncodeChunk(c)| && at + 3 * |EncodeChunk(c)| < USIZE
    ensures WellFormed(c.data)
    ensures var m := n - |Line(c)| - 2;
      Unchunk(Lossy(EncodeChunk(c)[..n]), at) == if m <= 0 then Text([]) else CutText(c.data, if m < |c.data| then m else |c.data|)
  {
    hide *;
    TextIsValid(c);
    LineParts(c);
    EncodedAs(c);
    EncodedLength(c);
    LossyLength(Line(c));
    var line, t := Line(c), c.data + [CR, LF];
    if n <= |line| + 1 {
      CutTextLine(line, t, n, at);
    } else {
      var m := n - |line| - 2;
      CutPast(line, t, m);
      ReadCrlf(line, t[..m]);
      AtReadable(c, Lossy(t[..m]), at);
      CutTextAfter(c.data, m, at + |Line(Readable(c))| + 2);
    }
  }

  lemma {:induction false} AtReadable(c: Chunk, t: seq<byte>, at: nat)
    requires TextChunk(c) && |c.data| < USIZE
    ensures |c.data| > 0 && Unchunk(Line(Readable(c)) + ([CR, LF] + t), at) == TakeData(t, |c.data|, at + |Line(Readable(c))| + 2)
  {
    hide *;
    TextIsValid(c);
    AtLine(Readable(c), t, at);
  }

  lemma {:induction false} CutTextLine(line: seq<byte>, t: seq<byte>, n: nat, at: nat)
    requires line != [] && CR !in line && line[0] < 0x80 && n <= |line| + 1
    ensures Unchunk(Lossy((line + ([CR, LF] + t))[..n]), at) == Text([])
  {
    hide Unchunk, Lossy;
    var s := (line + ([CR, LF] + t))[..n];
    if n <= |line| {
      assert s == line[..n];
      LossyKeepsAscii(s, CR);
      LossyNothing();
      if s != [] {
        LossyFront(s);
      }
      NoLine(Lossy(s), Lossy(s), at);
    } else {
      assert s == line + ([CR] + []);
      LossyAscii(line, CR, []);
      LossyKeepsAscii(line, CR);
      LossyNothing();
      LossyFront(line);
      assert [CR] + [] == [CR];
      NoLine(Lossy(line), Lossy(s), at);
    }
  }

  lemma {:induction false} CutTextAfter(d: seq<byte>, m: nat, at: nat)
    requires WellFormed(d) && d != [] && m <= |d| + 2 && at + |d| < USIZE
    ensures TakeData(Lossy((d + [CR, LF])[..m]), |d|, at) == if m == 0 then Text([]) else CutText(d, if m < |d| then m else |d|)
  {
    if m < |d| {
      assert (d + [CR, LF])[..m] == d[..m];
      CutTextData(d, m, at);
      hide WellFormed, TakeData;
    } else {
      var gap := [CR, LF][..m - |d|];
      assert (d + [CR, LF])[..m] == d + gap;
      AsciiWell(gap);
      hide *;
      LossyWell(d, gap);
      LossyItself(gap);
      DataThenGap(d, gap, at);
      AllArrived(d);
    }
  }

  lemma {:induction false} DataThenGap(d: seq<byte>, gap: seq<byte>, at: nat)
    requires WellFormed(d) && d != [] && gap <= [CR, LF] && at + |d| < USIZE
    ensures TakeData(d + gap, |d|, at) == Text(d)
  {
    WellFormedFront(d);
    hide TakeData, WellFormed, Unchunk;
    assert gap == gap + [];
    WholeData(d, gap, [], at);
    NothingThere(at + |d| + 2);
    assert d + [] == d;
  }

  /** What a response cut after `n` bytes comes to: the chunks whose data arrived whole, unless the cut fell inside a
      character that begins two bytes before the end of its data, which panics, or three, which passes for that chunk
      with a replacement character. */
  function CutResult(cs: seq<Chunk>, n: int): Outcome
    requires TextChunks(cs)
  {
    var g, k := CutGap(cs, n), Complete(cs, n);
    if g == 2 then Panic
    else if g == 3 then GapInside(cs, n); Text(Data(cs[..k]) + (cs[k].data[..|cs[k].data| - 3] + REPLACEMENT))
    else Text(Data(cs[..k]))
  }

  lemma {:induction false} CutResultFirst(cs: seq<Chunk>, n: nat)
    requires TextChunks(cs) && cs != [] && n < |Line(cs[0])| + 2 + |cs[0].data|
    ensures var m := n - |Line(cs[0])| - 2;
      WellFormed(cs[0].data) && CutResult(cs, n) == if m <= 0 then Text([]) else CutText(cs[0].data, m)
  {
    assert TextChunk(cs[0]);
    hide Line, TextChunk, CharStart, WellFormed, EncodeChunk;
    assert cs[..0] == [] && Data([]) == [];
    var d, m := cs[0].data, n - |Line(cs[0])| - 2;
    if m > 0 && CutGap(cs, n) == 3 {
      assert [] + (d[..|d| - 3] + REPLACEMENT) == d[..|d| - 3] + REPLACEMENT;
    }
  }

  lemma {:induction false} CutResultNext(cs: seq<Chunk>, n: nat)
    requires TextChunks(cs) && cs != [] && n >= |Line(cs[0])| + 2 + |cs[0].data|
    ensures CutResult(cs, n) == After(cs[0].data, CutResult(cs[1..], n - |EncodeChunk(cs[0])|))
  {
    var m := n - |EncodeChunk(cs[0])|;
    assert CutGap(cs, n) == CutGap(cs[1..], m) && Complete(cs, n) == 1 + Complete(cs[1..], m);
    CompleteStep(cs, n);
    var k := Complete(cs[1..], m);
    if CutGap(cs, n) > 0 {
      GapInside(cs, n);
      GapInside(cs[1..], m);
    }
    hide Line, TextChunk, EncodeChunk, CutGap, Complete, Data;
    if CutGap(cs, n) == 3 {
      assert cs[1..][k] == cs[k + 1];
      OneMorePart(cs[0].data, Data(cs[1..][..k]), cs[k + 1].data);
    }
  }

  lemma {:induction false} OneMorePart(a: seq<byte>, b: seq<byte>, last: seq<byte>)
    requires |last| >= 3
    ensures After(a, Text(b + (last[..|last| - 3] + REPLACEMENT))) == Text(a + b + (last[..|last| - 3] + REPLACEMENT))
  {
    assert a + (b + (last[..|last| - 3] + REPLACEMENT)) == a + b + (last[..|last| - 3] + REPLACEMENT);
  }

  lemma {:induction false} CutNothing(cs: seq<Chunk>, n: int, data: seq<byte>)
    requires TextChunks(cs) && n <= 0
    ensures CutResult(cs, n) == Text([]) && After(data, CutResult(cs, n)) == Text(data)
  {
    assert cs != [] ==> TextChunk(cs[0]);
    hide Line, TextChunk, CharStart, EncodeChunk;
    assert cs[..0] == [] && Data([]) == [] && data + [] == data;
  }

  lemma {:induction false} CutResponseStep(c: Chunk, rest: seq<byte>, at: nat)
    requires TextChunk(c) && at + 3 * |EncodeChunk(c)| < USIZE
    ensures |EncodeChunk(Readable(c))| <= 3 * |EncodeChunk(c)|
    ensures Unchunk(Lossy(EncodeChunk(c) + rest), at) == After(c.data, Unchunk(Lossy(rest), at + |EncodeChunk(Readable(c))|))
  {
    hide *;
    TextIsValid(c);
    EncodedLength(c);
    EncodedLength(Readable(c));
    LossyLength(Line(c));
    ReadChunk(c, rest);
    ChunkStep(Readable(c), Lossy(rest), at);
  }

  lemma {:induction false} CutTextEnding(last: Chunk, n: nat, at: nat)
    requires ValidEnd(last) && n <= |Ending(last)|
    ensures Unchunk(Lossy(Ending(last)[..n]), at) == Text([])
  {
    hide *;
    EndingParts(last);
    EndingText(last);
    LineParts(last);
    var line, t := Line(last), last.data;
    if n <= |line| + 1 {
      CutTextLine(line, t, n, at);
    } else {
      var m := n - |line| - 2;
      CutPast(line, t, m);
      ReadCrlf(line, t[..m]);
      AtLine(Readable(last), Lossy(t[..m]), at);
    }
  }

  lemma {:induction false} EndingText(last: Chunk)
    requires ValidEnd(last)
    ensures Line(last) != [] && Line(last)[0] < 0x80 && Line(Readable(last)) == Lossy(Line(last))
    ensures ValidLine(last.digits, last.blanks, Readable(last).extension) && Readable(last).digits == last.digits
    ensures Readable(last).blanks == last.blanks
  {
    LineIsText(last);
    assert IsHex(Line(last)[0]);
    hide Line, HexValue, Lossy;
  }

  lemma {:induction false} CutResponseFrom(cs: seq<Chunk>, last: Chunk, n: nat, at: nat)
    requires TextChunks(cs) && ValidEnd(last) && n <= |Encode(cs) + Ending(last)| && at + 3 * |Encode(cs) + Ending(last)| < USIZE
    ensures Unchunk(Lossy((Encode(cs) + Ending(last))[..n]), at) == CutResult(cs, n)
    decreases |cs|
  {
    hide *;
    if cs == [] {
      NoChunks(n);
      assert Encode(cs) + Ending(last) == Ending(last);
      CutTextEnding(last, n, at);
    } else {
      var c, more := cs[0], Encode(cs[1..]) + Ending(last);
      FirstChunk(cs, Ending(last));
      EncodedLength(c);
      if n < |EncodeChunk(c)| {
        assert (EncodeChunk(c) + more)[..n] == EncodeChunk(c)[..n];
        CutTextChunk(c, n, at);
        if n < |Line(c)| + 2 + |c.data| {
          CutResultFirst(cs, n);
        } else {
          CutResultNext(cs, n);
          CutNothing(cs[1..], n - |EncodeChunk(c)|, c.data);
          AllArrived(c.data);
        }
      } else {
        var m := n - |EncodeChunk(c)|;
        assert (EncodeChunk(c) + more)[..n] == EncodeChunk(c) + more[..m];
        CutResponseStep(c, more[..m], at);
        CutResponseFrom(cs[1..], last, m, at + |EncodeChunk(Readable(c))|);
        CutResultNext(cs, n);
      }
    }
  }

  lemma {:induction false} NoChunks(n: int)
    ensures Encode([]) == [] && CutResult([], n) == Text([])
  {
  }

  lemma {:induction false} FirstChunk(cs: seq<Chunk>, tail: seq<byte>)
    requires cs != [] && TextChunks(cs)
    ensures TextChunk(cs[0]) && TextChunks(cs[1..]) && Encode(cs) + tail == EncodeChunk(cs[0]) + (Encode(cs[1..]) + tail)
  {
    hide EncodeChunk, TextChunk;
  }

  lemma {:induction false} AllArrived(d: seq<byte>)
    requires WellFormed(d)
    ensures CutText(d, |d|) == Text(d)
  {
    hide WellFormed;
  }

  /** A response cut anywhere by the end of the connection. */
  lemma {:induction false} CutResponse(cs: seq<Chunk>, last: Chunk, n: nat)
    requires TextChunks(cs) && ValidEnd(last) && n <= |Encode(cs) + Ending(last)| && 3 * |Encode(cs) + Ending(last)| < USIZE
    ensures Unchunk(Lossy((Encode(cs) + Ending(last))[..n]), 0) == CutResult(cs, n)
    ensures Unchunk(Lossy((Encode(cs) + Ending(last))[..n]), 0) == Text(Data(cs[..Complete(cs, n)])) <==> CutGap(cs, n) !in {2, 3}
  {
    hide Unchunk, Lossy, Encode, Data, Ending, ValidEnd, TextChunks, CutGap, Complete, CutResult;
    CutResponseFrom(cs, last, n, 0);
    CutResultWhole(cs, n);
  }

  lemma {:induction false} CutResultWhole(cs: seq<Chunk>, n: int)
    requires TextChunks(cs)
    ensures CutResult(cs, n) == Text(Data(cs[..Complete(cs, n)])) <==> CutGap(cs, n) !in {2, 3}
  {
    if CutGap(cs, n) == 3 {
      GapInside(cs, n);
      var k := Complete(cs, n);
      assert |Data(cs[..k]) + (cs[k].data[..|cs[k].data| - 3] + REPLACEMENT)| > |Data(cs[..k])|;
    }
    hide TextChunks, CutGap, Complete, Data;
  }

  /** One byte short of a two-byte character: the four bytes that arrived make the decoder panic. */
  lemma {:induction false} CutPanics()
    ensures Unchunk(Lossy([50, CR, LF, 0xC3]), 0) == Panic
  {
    var d: seq<byte> := [0xC3, 0xA9];
    var c, last := Chunk([50], [], [], d), Chunk([48], [], [], []);
    assert d[2..] == [] && WellFormed(d);
    assert [50][..0] == [] && HexValue([50]) == 2 && [48][..0] == [] && HexValue([48]) == 0;
    OneChunk(c, last);
    assert CharStart(d, 1) == 0;
    assert CutGap([c], 4) == 2;
    hide Unchunk, Lossy, HexValue, WellFormed, CutGap, Encode, EncodeChunk, Ending;
    CutResponse([c], last, 4);
    assert ([50] + ([CR, LF] + (d + ([CR, LF] + Ending(last)))))[..4] == [50, CR, LF, 0xC3];
  }

  lemma {:induction false} OneChunk(c: Chunk, last: Chunk)
    ensures Encode([c]) + Ending(last) == Line(c) + ([CR, LF] + (c.data + ([CR, LF] + Ending(last))))
    ensures c.blanks == [] && c.extension == [] ==> Line(c) == c.digits
    ensures |Ending(last)| == |last.digits + last.blanks + last.extension| + 2 + |last.data|
  {
    assert [c][1..] == [] && Encode([]) == [];
    Encoded(c, Ending(last));
    assert Encode([c]) == EncodeChunk(c) + [];
    assert EncodeChunk(c) + [] == EncodeChunk(c);
  }

  /* ---- a chunk that ends inside a character ---- */

  lemma {:induction false} SplitChunk(c: Chunk, whole: seq<byte>, begun: seq<byte>, rest: seq<byte>)
    requires ValidLine(c.digits, c.blanks, c.extension) && c.data == whole + begun && WellFormed(whole) && Unfinished(begun)
    ensures Lossy(EncodeChunk(c) + rest) == Line(Readable(c)) + ([CR, LF] + (whole + (REPLACEMENT + ([CR, LF] + Lossy(rest)))))
  {
    hide *;
    var tail := [CR, LF] + rest;
    LineIsText(c);
    Encoded(c, rest);
    ReadCrlf(Line(c), c.data + tail);
    assert c.data + tail == whole + (begun + tail);
    LossyWell(whole, begun + tail);
    ReadCrlf(begun, rest);
    LossyUnfinished(begun);
  }

  lemma {:induction false} SplitSizes(cs: seq<Chunk>, c: Chunk, rest: seq<byte>)
    requires TextChunks(cs) && ValidLine(c.digits, c.blanks, c.extension) && 3 * |Encode(cs) + EncodeChunk(c) + rest| < USIZE
    ensures |Encode(AllReadable(cs))| + |EncodeChunk(Readable(c))| < USIZE && |Readable(c).data| == |c.data|
    ensures |EncodeChunk(Readable(c))| == |Line(Readable(c))| + 2 + |c.data| + 2
  {
    LineIsText(c);
    ReadChunks(cs, []);
    LossyLength(Encode(cs) + []);
    LossyLength(Line(c));
    LossyNothing();
    EncodedLength(c);
    EncodedLength(Readable(c));
    hide Lossy, EncodeChunk, Line, Encode, AllReadable, TextChunks, ValidLine;
  }

  lemma {:induction false} AtReadableLine(c: Chunk, t: seq<byte>, at: nat)
    requires ValidLine(c.digits, c.blanks, c.extension) && 0 < HexValue(c.digits) < USIZE
    ensures AllHex(c.digits)
    ensures Unchunk(Line(Readable(c)) + ([CR, LF] + t), at) == TakeData(t, HexValue(c.digits), at + |Line(Readable(c))| + 2)
  {
    hide *;
    LineIsText(c);
    ReadableParts(c);
    LineParts(c);
    AtLine(Readable(c), t, at);
  }

  lemma {:induction false} SplitData(whole: seq<byte>, k: nat, rest: seq<byte>, at: nat)
    requires 1 <= k <= 3 && (whole != [] ==> !Continuation(whole[0])) && at + |whole| + 3 < USIZE
    ensures TakeData(whole + (REPLACEMENT + ([CR, LF] + rest)), |whole| + k, at) ==
      if k < 3 then Panic else After(whole + REPLACEMENT, Unchunk(rest, at + |whole| + 5))
  {
    hide *;
    SplitPlaces(whole, [CR, LF] + rest, k);
    if k == 3 {
      SplitAfter(whole, rest, k);
    }
    Judged(whole + (REPLACEMENT + ([CR, LF] + rest)), |whole| + k, at);
  }

  /** What is in the text where the data is said to end. */
  lemma {:induction false} SplitPlaces(whole: seq<byte>, tail: seq<byte>, k: nat)
    requires 1 <= k <= 3 && (whole != [] ==> !Continuation(whole[0])) && tail != [] && tail[0] == CR
    ensures var t := whole + (REPLACEMENT + tail); !Inside(t, 0) && |whole| + k < |t| && (Inside(t, |whole| + k) <==> k < 3)
  {
    var t := whole + (REPLACEMENT + tail);
    assert t[|whole| + k] == (REPLACEMENT + tail)[k];
  }

  lemma {:induction false} SplitAfter(whole: seq<byte>, rest: seq<byte>, k: nat)
    requires k == 3
    ensures var t := whole + (REPLACEMENT + ([CR, LF] + rest)); t[..|whole| + k] == whole + REPLACEMENT && Skip(t, |whole| + k + 2) == rest
  {
  }

  lemma {:induction false} Judged(t: seq<byte>, n: nat, at: nat)
    requires 0 < n < |t| && at + n < USIZE && !Inside(t, 0)
    ensures TakeData(t, n, at) == if Inside(t, n) then Panic else After(t[..n], Unchunk(Skip(t, n + 2), at + n + 2))
  {
    hide Unchunk;
  }

  /** After chunks that are texts, one whose data ends in an unfinished character makes the decoder panic when one or two
      bytes of the character are in it; three pass as a replacement character, and what follows is decoded on its own. */
  lemma {:induction false} SplitCharacter(cs: seq<Chunk>, c: Chunk, whole: seq<byte>, begun: seq<byte>, rest: seq<byte>)
    requires TextChunks(cs) && ValidLine(c.digits, c.blanks, c.extension) && c.data == whole + begun && HexValue(c.digits) == |c.data|
    requires WellFormed(whole) && Unfinished(begun) && 3 * |Encode(cs) + EncodeChunk(c) + rest| < USIZE
    ensures Unchunk(Lossy(Encode(cs) + (EncodeChunk(c) + rest)), 0) ==
      if |begun| < 3 then Panic
      else After(Data(cs) + whole + REPLACEMENT,
        Unchunk(Lossy(rest), |Encode(AllReadable(cs))| + |EncodeChunk(Readable(c))|))
  {
    hide *;
    var at := |Encode(AllReadable(cs))|;
    var line, t := Line(Readable(c)), whole + (REPLACEMENT + ([CR, LF] + Lossy(rest)));
    ReadChunks(cs, EncodeChunk(c) + rest);
    SplitChunk(c, whole, begun, rest);
    SplitSizes(cs, c, rest);
    EncodedLength(c);
    LossyUnfinished(begun);
    ChunksStep(AllReadable(cs), line + ([CR, LF] + t), 0);
    LineIsText(c);
    AtReadableLine(c, t, at);
    if whole != [] {
      WellFormedFront(whole);
    }
    SplitData(whole, |begun|, Lossy(rest), at + |line| + 2);
    if |begun| == 3 {
      EncodedLength(Readable(c));
      AfterBoth(Data(cs), whole + REPLACEMENT, Unchunk(Lossy(rest), at + |EncodeChunk(Readable(c))|));
      assert Data(cs) + whole + REPLACEMENT == Data(cs) + (whole + REPLACEMENT);
    } else {
      PanicAfter(Data(cs), Panic);
    }
  }
}

/** When the text a server sends in chunks is the text that is read. A server may cut its text at any byte. */
module ResponseExact {
  import opened Bytes
  import opened Utf8
  import opened Dechunk
  import opened DechunkProofs
  import opened ChunkedResponse

  /** A chunk of any bytes, under a line that gives their number. */
  predicate SizedChunk(c: Chunk) {
    ValidLine(c.digits, c.blanks, c.extension) && HexValue(c.digits) == |c.data| > 0
  }

  predicate SizedChunks(cs: seq<Chunk>) {
    forall i :: 0 <= i < |cs| ==> SizedChunk(cs[i])
  }

  lemma {:induction false} EncodeSplit(cs: seq<Chunk>, k: nat)
    requires k < |cs|
    ensures Encode(cs) == Encode(cs[..k]) + (EncodeChunk(cs[k]) + Encode(cs[k + 1..]))
    ensures Data(cs) == Data(cs[..k]) + (cs[k].data + Data(cs[k + 1..]))
  {
    hide EncodeChunk;
    if k == 0 {
      assert cs[..0] == [] && [] + Encode(cs) == Encode(cs) && [] + Data(cs) == Data(cs);
    } else {
      EncodeSplit(cs[1..], k - 1);
      assert cs[1..][..k - 1] == cs[..k][1..] && cs[1..][k..] == cs[k + 1..];
      Joins(EncodeChunk(cs[0]), Encode(cs[..k][1..]), EncodeChunk(cs[k]) + Encode(cs[k + 1..]));
      Joins(cs[0].data, Data(cs[..k][1..]), cs[k].data + Data(cs[k + 1..]));
    }
  }

  /** The first chunk that is not a text of its own. */
  lemma {:induction false} FirstCut(cs: seq<Chunk>) returns (k: nat)
    requires SizedChunks(cs) && !TextChunks(cs)
    ensures k < |cs| && TextChunks(cs[..k]) && !WellFormed(cs[k].data)
  {
    hide ValidLine, WellFormed;
    k := 0;
    while k < |cs| && TextChunk(cs[k])
      invariant k <= |cs| && forall i :: 0 <= i < k ==> TextChunk(cs[i])
    {
      k := k + 1;
    }
    assert k < |cs| && SizedChunk(cs[k]);
  }

  lemma {:induction false} TextDataWell(cs: seq<Chunk>)
    requires TextChunks(cs)
    ensures WellFormed(Data(cs))
  {
    if cs != [] {
      assert TextChunk(cs[0]);
      hide TextChunk, WellFormed;
      TextDataWell(cs[1..]);
      assert WellFormed(cs[0].data) by {
        TextIsValid(cs[0]);
      }
      WellJoin(cs[0].data, Data(cs[1..]));
    }
  }

  /** Data that is not a text, at the front of one: it ends in an unfinished character. */
  lemma {:induction false} EndsUnfinished(data: seq<byte>, later: seq<byte>) returns (whole: seq<byte>, begun: seq<byte>)
    requires WellFormed(data + later) && !WellFormed(data)
    ensures data == whole + begun && WellFormed(whole) && Unfinished(begun)
  {
    var d, m := data + later, |data|;
    CutInTwo(d, m);
    hide *;
    var s := CharStart(d, m);
    assert d[..m] == data;
    whole, begun := d[..s], d[s..m];
    assert s == m ==> whole == data;
    assert data == whole + begun;
  }

  lemma {:induction false} WideFirst(begun: seq<byte>)
    requires Unfinished(begun) && |begun| >= 3
    ensures begun[0] >= 0xF0
  {
  }

  /** Two texts that differ after the same beginning. */
  lemma {:induction false} Differ(front: seq<byte>, a: seq<byte>, b: seq<byte>)
    requires a != [] && b != [] && a[0] != b[0]
    ensures front + a != front + b
  {
    assert (front + a)[|front|] == a[0] && (front + b)[|front|] == b[0];
  }

  /** A text with a replacement character where the one sent has the first byte of a four-byte character. */
  lemma {:induction false} ReadOtherwise(before: seq<byte>, whole: seq<byte>, begun: seq<byte>, later: seq<byte>, rest: Outcome)
    requires begun != [] && begun[0] >= 0xF0
    ensures After(before + whole + REPLACEMENT, rest) != Text(before + ((whole + begun) + later))
  {
    if rest.Text? {
      var front := before + whole;
      assert front + REPLACEMENT + rest.text == front + (REPLACEMENT + rest.text);
      assert before + ((whole + begun) + later) == front + (begun + later);
      Differ(front, REPLACEMENT + rest.text, begun + later);
    }
  }

  /** What a chunk that ends in an unfinished character comes to, `rest` being what follows it comes to. */
  function SplitOutcome(front: seq<byte>, begun: seq<byte>, rest: Outcome): Outcome {
    if |begun| < 3 then Panic else After(front + REPLACEMENT, rest)
  }

  lemma {:induction false} SplitReads(before: seq<Chunk>, c: Chunk, whole: seq<byte>, begun: seq<byte>, rest: seq<byte>) returns (o: Outcome)
    requires TextChunks(before) && SizedChunk(c) && c.data == whole + begun && WellFormed(whole) && Unfinished(begun)
    requires 3 * |Encode(before) + EncodeChunk(c) + rest| < USIZE
    ensures Unchunk(Lossy(Encode(before) + (EncodeChunk(c) + rest)), 0) == SplitOutcome(Data(before) + whole, begun, o)
  {
    hide *;
    SizedParts(c);
    o := Unchunk(Lossy(rest), |Encode(AllReadable(before))| + |EncodeChunk(Readable(c))|);
    SplitOutcomeIs(Data(before) + whole, begun, o);
    SplitCharacter(before, c, whole, begun, rest);
  }

  lemma {:induction false} SizedParts(c: Chunk)
    requires SizedChunk(c)
    ensures ValidLine(c.digits, c.blanks, c.extension) && AllHex(c.digits) && HexValue(c.digits) == |c.data| > 0
  {
    hide HexValue;
  }

  lemma {:induction false} SplitOutcomeIs(front: seq<byte>, begun: seq<byte>, rest: Outcome)
    ensures SplitOutcome(front, begun, rest) == if |begun| < 3 then Panic else After(front + REPLACEMENT, rest)
  {
  }

  lemma {:induction false} NotAsSent(before: seq<byte>, whole: seq<byte>, begun: seq<byte>, later: seq<byte>, rest: Outcome)
    requires Unfinished(begun)
    ensures SplitOutcome(before + whole, begun, rest) != Text(before + ((whole + begun) + later))
  {
    LossyUnfinished(begun);
    if |begun| == 3 {
      WideFirst(begun);
      hide Unfinished;
      ReadOtherwise(before, whole, begun, later, rest);
    }
  }

  /** After chunks that are texts, one that is not one of its own, whatever bytes follow it. */
  lemma {:induction false} CutHere(before: seq<Chunk>, c: Chunk, later: seq<byte>, rest: seq<byte>)
    requires TextChunks(before) && SizedChunk(c) && !WellFormed(c.data) && WellFormed(c.data + later)
    requires 3 * |Encode(before) + EncodeChunk(c) + rest| < USIZE
    ensures Unchunk(Lossy(Encode(before) + (EncodeChunk(c) + rest)), 0) != Text(Data(before) + (c.data + later))
  {
    hide *;
    var whole, begun := EndsUnfinished(c.data, later);
    var o := SplitReads(before, c, whole, begun, rest);
    NotAsSent(Data(before), whole, begun, later, o);
  }

  lemma {:induction false} Regroup(a: seq<byte>, b: seq<byte>, c: seq<byte>, d: seq<byte>)
    ensures (a + (b + c)) + d == a + (b + (c + d)) && a + (b + (c + d)) == a + b + (c + d)
  {
  }

  /** A response with a chunk that is not a text of its own is not read as sent. */
  lemma {:induction false} CutIsSeen(cs: seq<Chunk>, last: Chunk)
    requires SizedChunks(cs) && WellFormed(Data(cs)) && !TextChunks(cs) && 3 * |Encode(cs) + Ending(last)| < USIZE
    ensures Unchunk(Lossy(Encode(cs) + Ending(last)), 0) != Text(Data(cs))
  {
    var k := FirstCut(cs);
    assert SizedChunk(cs[k]);
    hide *;
    EncodeSplit(cs, k);
    TextDataWell(cs[..k]);
    WellDrop(Data(cs[..k]), cs[k].data + Data(cs[k + 1..]));
    Regroup(Encode(cs[..k]), EncodeChunk(cs[k]), Encode(cs[k + 1..]), Ending(last));
    CutHere(cs[..k], cs[k], Data(cs[k + 1..]), Encode(cs[k + 1..]) + Ending(last));
  }

  /** However a server cuts a text into chunks, it is read as sent if and only if every chunk is a text of its own. */
  lemma {:induction false} ResponseExact(cs: seq<Chunk>, last: Chunk)
    requires SizedChunks(cs) && WellFormed(Data(cs)) && ValidEnd(last) && 3 * |Encode(cs) + Ending(last)| < USIZE
    ensures Unchunk(Lossy(Encode(cs) + Ending(last)), 0) == Text(Data(cs)) <==> TextChunks(cs)
  {
    hide *;
    if TextChunks(cs) {
      ResponseInverts(cs, last);
    } else {
      CutIsSeen(cs, last);
    }
  }
}

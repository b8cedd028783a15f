/** What the DNS reader accepts of any bytes at all: names, character-strings, and the message as a chain of places. */
module DnsExact {
  import opened Bytes
  import opened DnsReader

  /* ---- names ---- */

  /** Labels, each behind its length below 192, and then a zero or two bytes of a pointer. */
  predicate SpellsName(b: seq<byte>) {
    b != [] &&
    if b[0] == 0 then |b| == 1
    else if b[0] >= 192 then |b| == 2
    else |b| > 1 + b[0] && SpellsName(b[1 + b[0]..])
  }

  /** A name ends where the reader says if and only if the bytes up to there spell one. */
  lemma {:induction false} NameExact(buf: seq<byte>, pos: nat, end: nat)
    ensures NameEndsAt(buf, pos) == Some(end) <==> pos < end <= |buf| && SpellsName(buf[pos..end])
    decreases |buf| - pos
  {
    if pos < |buf| {
      var len: int := buf[pos];
      if pos < end <= |buf| {
        assert buf[pos..end][0] == len;
      }
      if 0 < len < 192 {
        if pos + 1 + len <= |buf| {
          NameExact(buf, pos + 1 + len, end);
        }
        if pos + 1 + len < end <= |buf| {
          assert buf[pos..end][1 + len..] == buf[pos + 1 + len..end];
        }
      }
    }
  }

  /* ---- character-strings ---- */

  function PiecesBytes(parts: seq<seq<byte>>): seq<byte>
    requires forall i :: 0 <= i < |parts| ==> |parts[i]| < 256
  {
    if parts == [] then [] else [|parts[0]|] + parts[0] + PiecesBytes(parts[1..])
  }

  function PiecesText(lossy: Lossy, parts: seq<seq<byte>>): string {
    if parts == [] then "" else lossy(parts[0]) + PiecesText(lossy, parts[1..])
  }

  ghost predicate Pieces(data: seq<byte>, parts: seq<seq<byte>>) {
    (forall i :: 0 <= i < |parts| ==> |parts[i]| < 256) && PiecesBytes(parts) == data
  }

  lemma {:induction false} PieceInFront(data: seq<byte>, part: seq<byte>, more: seq<byte>)
    requires |part| < 256 && data == [|part|] + part + more
    ensures |data| == 1 + |part| + |more| && data[0] == |part| && data[1..1 + |part|] == part && data[1 + |part|..] == more
  {
    assert data[1..1 + |part|] == part;
    assert data[1 + |part|..] == more;
  }

  lemma {:induction false} SliceOfSlice(msg: seq<byte>, p: nat, end: nat, i: nat, j: nat)
    requires p <= end <= |msg| && i <= j <= end - p
    ensures msg[p..end][i..j] == msg[p + i..p + j]
  {
    var a, b := msg[p..end][i..j], msg[p + i..p + j];
    assert |a| == |b| && forall k :: 0 <= k < |a| ==> a[k] == b[k];
  }

  lemma {:induction false} FirstPiece(msg: seq<byte>, p: nat, end: nat, part: seq<byte>, more: seq<byte>)
    requires p <= end <= |msg| && |part| < 256 && msg[p..end] == [|part|] + part + more
    ensures p + 1 + |part| <= end && msg[p] == |part| && msg[p + 1..p + 1 + |part|] == part && msg[p + 1 + |part|..end] == more
  {
    var data := msg[p..end];
    PieceInFront(data, part, more);
    assert msg[p] == data[0];
    SliceOfSlice(msg, p, end, 1, 1 + |part|);
    SliceOfSlice(msg, p, end, 1 + |part|, end - p);
    assert data[1 + |part|..end - p] == data[1 + |part|..];
  }

  /** A row of character-strings reads as they read one by one. */
  lemma {:induction false} StringsExact(lossy: Lossy, msg: seq<byte>, p: nat, end: nat, parts: seq<seq<byte>>)
    requires p <= end <= |msg| && Pieces(msg[p..end], parts)
    ensures Strings(lossy, msg, p, end) == Some(PiecesText(lossy, parts))
    decreases |parts|
  {
    if parts != [] {
      assert |parts[0]| < 256 && Pieces(PiecesBytes(parts[1..]), parts[1..]);
      FirstPiece(msg, p, end, parts[0], PiecesBytes(parts[1..]));
      hide PiecesBytes, Pieces;
      StringsExact(lossy, msg, p + 1 + |parts[0]|, end, parts[1..]);
    }
  }

  lemma {:induction false} StringsArePieces(lossy: Lossy, msg: seq<byte>, p: nat, end: nat) returns (parts: seq<seq<byte>>)
    requires p <= end <= |msg| && Strings(lossy, msg, p, end).Some?
    ensures Pieces(msg[p..end], parts)
    decreases end - p
  {
    if p >= end {
      parts := [];
    } else {
      var len: int := msg[p];
      var more := StringsArePieces(lossy, msg, p + 1 + len, end);
      parts := [msg[p + 1..p + 1 + len]] + more;
      assert parts[1..] == more;
      assert msg[p..end] == [msg[p]] + msg[p + 1..p + 1 + len] + msg[p + 1 + len..end];
    }
  }

  /* ---- the message as a chain of places ---- */

  /** A question from `p` to `q`: a name and four bytes, which the reader does not look at. */
  predicate QuestionAt(msg: seq<byte>, p: nat, q: nat) {
    q >= 4 && p < q - 4 <= |msg| && SpellsName(msg[p..q - 4])
  }

  /** A record from `p` to `q` with its data from `d`: a name, ten bytes, the last two of them the length, and the data. */
  predicate RecordAt(msg: seq<byte>, p: nat, d: nat, q: nat) {
    && d >= 10 && p < d - 10 && d <= q <= |msg|
    && SpellsName(msg[p..d - 10]) && q - d == U16At(msg, d - 2)
  }

  /** Questions one after the other. */
  predicate QuestionChain(msg: seq<byte>, places: seq<nat>) {
    forall i :: 0 <= i < |places| - 1 ==> QuestionAt(msg, places[i], places[i + 1])
  }

  lemma {:induction false} QuestionsExact(msg: seq<byte>, pos: nat, places: seq<nat>)
    requires places != [] && places[0] == pos && QuestionChain(msg, places)
    ensures AfterQuestions(msg, pos, |places| - 1) == Some(places[|places| - 1])
    decreases |places|
  {
    if |places| > 1 {
      assert QuestionAt(msg, places[0], places[1]);
      NameExact(msg, pos, places[1] - 4);
      hide NameEndsAt, SpellsName;
      var more := places[1..];
      forall i | 0 <= i < |more| - 1 ensures QuestionAt(msg, more[i], more[i + 1]) {
        assert QuestionAt(msg, places[i + 1], places[i + 1 + 1]);
      }
      QuestionsExact(msg, places[1], more);
    }
  }

  lemma {:induction false} QuestionsChain(msg: seq<byte>, pos: nat, n: nat) returns (places: seq<nat>)
    requires AfterQuestions(msg, pos, n).Some?
    ensures |places| == n + 1 && places[0] == pos && QuestionChain(msg, places) && AfterQuestions(msg, pos, n).value == places[n]
    decreases n
  {
    if n == 0 {
      places := [pos];
    } else {
      var e := NameEndsAt(msg, pos).value;
      NameExact(msg, pos, e);
      hide NameEndsAt, SpellsName;
      var more := QuestionsChain(msg, e + 4, n - 1);
      places := [pos] + more;
      assert QuestionAt(msg, pos, e + 4);
      forall i | 0 <= i < |places| - 1 ensures QuestionAt(msg, places[i], places[i + 1]) {
        assert i > 0 ==> QuestionAt(msg, more[i - 1], more[i]);
      }
    }
  }

  /** A record and its data. */
  datatype Place = Place(start: nat, data: nat, end: nat)

  /** Records one after the other from `pos`, the last a TXT record and none before it. */
  predicate TxtChain(msg: seq<byte>, pos: nat, places: seq<Place>) {
    && places != [] && places[0].start == pos
    && (forall i :: 0 <= i < |places| ==> RecordAt(msg, places[i].start, places[i].data, places[i].end))
    && (forall i :: 0 <= i < |places| - 1 ==> places[i + 1].start == places[i].end)
    && (forall i :: 0 <= i < |places| ==> (U16At(msg, places[i].data - 10) == 16 <==> i == |places| - 1))
  }

  lemma {:induction false} RecordRead(msg: seq<byte>, r: Place)
    requires RecordAt(msg, r.start, r.data, r.end)
    ensures NameEndsAt(msg, r.start) == Some(r.data - 10) && r.data <= |msg| && r.data - 10 >= 0
    ensures U16At(msg, r.data - 2) == r.end - r.data
  {
    NameExact(msg, r.start, r.data - 10);
  }

  lemma {:induction false} ChainBehind(msg: seq<byte>, pos: nat, places: seq<Place>)
    requires TxtChain(msg, pos, places)
    ensures |places| > 1 ==> TxtChain(msg, places[0].end, places[1..])
    ensures RecordAt(msg, places[0].start, places[0].data, places[0].end) && places[0].start == pos
    ensures U16At(msg, places[0].data - 10) == 16 <==> |places| == 1
  {
    hide RecordAt;
    var more := places[1..];
    assert RecordAt(msg, places[0].start, places[0].data, places[0].end);
    forall i | 0 <= i < |more| ensures RecordAt(msg, more[i].start, more[i].data, more[i].end) {
      assert more[i] == places[i + 1];
    }
    RecordsLong(msg, places);
    RecordsLong(msg, more);
    if |places| > 1 {
      assert places[0 + 1].start == places[0].end;
      forall i | 0 <= i < |more| - 1 ensures more[i + 1].start == more[i].end {
        assert places[i + 1 + 1].start == places[i + 1].end;
      }
      forall i | 0 <= i < |more| ensures U16At(msg, more[i].data - 10) == 16 <==> i == |more| - 1 {
        assert more[i] == places[i + 1];
      }
    }
  }

  /** What the reader makes of the data of a TXT record. */
  function TextIn(lossy: Lossy, msg: seq<byte>, r: Place): Option<string>
    requires r.end <= |msg|
  {
    var text := Strings(lossy, msg, r.data, r.end);
    if text == Some("") then None else text
  }

  lemma {:induction false} OneRecord(lossy: Lossy, msg: seq<byte>, r: Place, n: nat)
    requires RecordAt(msg, r.start, r.data, r.end) && n > 0
    ensures 10 <= r.data <= r.end <= |msg|
    ensures Answers(lossy, msg, r.start, n) ==
      if U16At(msg, r.data - 10) == 16 then TextIn(lossy, msg, r) else Answers(lossy, msg, r.end, n - 1)
  {
    RecordRead(msg, r);
    hide NameEndsAt, SpellsName, Strings;
  }

  lemma {:induction false} AnswersExact(lossy: Lossy, msg: seq<byte>, pos: nat, n: nat, places: seq<Place>)
    requires TxtChain(msg, pos, places) && |places| <= n
    ensures places[|places| - 1].end <= |msg|
    ensures Answers(lossy, msg, pos, n) == TextIn(lossy, msg, places[|places| - 1])
    decreases n
  {
    ChainBehind(msg, pos, places);
    hide TxtChain, RecordAt, Answers, TextIn;
    OneRecord(lossy, msg, places[0], n);
    if |places| > 1 {
      var more := places[1..];
      AnswersExact(lossy, msg, places[0].end, n - 1, more);
      assert more[|more| - 1] == places[|places| - 1];
    }
  }

  lemma {:induction false} AnswersChain(lossy: Lossy, msg: seq<byte>, pos: nat, n: nat) returns (places: seq<Place>)
    requires Answers(lossy, msg, pos, n).Some?
    ensures TxtChain(msg, pos, places) && |places| <= n
    decreases n
  {
    var e := NameEndsAt(msg, pos).value;
    NameExact(msg, pos, e);
    hide NameEndsAt, SpellsName, Strings;
    var rdlen: int := U16At(msg, e + 8);
    var r := Place(pos, e + 10, e + 10 + rdlen);
    assert RecordAt(msg, r.start, r.data, r.end);
    if U16At(msg, e) == 16 {
      places := [r];
    } else {
      var more := AnswersChain(lossy, msg, r.end, n - 1);
      places := [r] + more;
      ChainInFront(msg, r, more);
    }
  }

  lemma {:induction false} ChainInFront(msg: seq<byte>, r: Place, more: seq<Place>)
    requires RecordAt(msg, r.start, r.data, r.end) && U16At(msg, r.data - 10) != 16 && TxtChain(msg, r.end, more)
    ensures TxtChain(msg, r.start, [r] + more)
  {
    hide RecordAt;
    var places := [r] + more;
    forall i | 0 <= i < |places| ensures RecordAt(msg, places[i].start, places[i].data, places[i].end) {
      assert i > 0 ==> places[i] == more[i - 1];
    }
    RecordsLong(msg, places);
    forall i | 0 <= i < |places| - 1 ensures places[i + 1].start == places[i].end {
      assert i > 0 ==> places[i] == more[i - 1] && places[i + 1] == more[i];
    }
    forall i | 0 <= i < |places| ensures U16At(msg, places[i].data - 10) == 16 <==> i == |places| - 1 {
      assert i > 0 ==> places[i] == more[i - 1];
    }
  }

  lemma {:induction false} RecordsLong(msg: seq<byte>, places: seq<Place>)
    requires forall i :: 0 <= i < |places| ==> RecordAt(msg, places[i].start, places[i].data, places[i].end)
    ensures forall i :: 0 <= i < |places| ==> 10 <= places[i].data <= |msg|
  {
  }

  /** A message gives this text. */
  ghost predicate GivesText(lossy: Lossy, msg: seq<byte>, text: string, questions: seq<nat>, records: seq<Place>, parts: seq<seq<byte>>) {
    && |msg| >= 12 && |questions| == U16At(msg, 4) + 1 && questions[0] == 12 && QuestionChain(msg, questions)
    && |records| <= U16At(msg, 6) && TxtChain(msg, questions[|questions| - 1], records)
    && var r := records[|records| - 1];
    && Pieces(msg[r.data..r.end], parts) && text == PiecesText(lossy, parts) && text != ""
  }

  /** For any bytes at all: a text is read if and only if there are the questions announced, then whole records up to the first
      TXT record, among those announced, and that record's data is a row of character-strings which read as this text, and
      not as an empty one. */
  lemma {:induction false} TextExact(lossy: Lossy, msg: seq<byte>, text: string)
    ensures TxtOf(lossy, msg) == Some(text) <==>
      exists questions, records, parts :: GivesText(lossy, msg, text, questions, records, parts)
  {
    if TxtOf(lossy, msg) == Some(text) {
      TextGiven(lossy, msg, text);
    }
    if questions, records, parts :| GivesText(lossy, msg, text, questions, records, parts) {
      TextRead(lossy, msg, text, questions, records, parts);
    }
  }

  lemma {:induction false} TextGiven(lossy: Lossy, msg: seq<byte>, text: string)
    requires TxtOf(lossy, msg) == Some(text)
    ensures exists questions, records, parts :: GivesText(lossy, msg, text, questions, records, parts)
  {
    var questions := QuestionsChain(msg, 12, U16At(msg, 4));
    var pos := questions[|questions| - 1];
    var records := AnswersChain(lossy, msg, pos, U16At(msg, 6));
    AnswersExact(lossy, msg, pos, U16At(msg, 6), records);
    LastRecord(msg, pos, records);
    var r := records[|records| - 1];
    var parts := StringsArePieces(lossy, msg, r.data, r.end);
    StringsExact(lossy, msg, r.data, r.end, parts);
    hide Answers, AfterQuestions, Strings, QuestionChain, TxtChain, Pieces;
    assert GivesText(lossy, msg, text, questions, records, parts);
  }

  lemma {:induction false} LastRecord(msg: seq<byte>, pos: nat, records: seq<Place>)
    requires TxtChain(msg, pos, records)
    ensures records != [] && records[|records| - 1].data <= records[|records| - 1].end <= |msg|
  {
    var r := records[|records| - 1];
    assert RecordAt(msg, r.start, r.data, r.end);
  }

  lemma {:induction false} TextRead(lossy: Lossy, msg: seq<byte>, text: string, questions: seq<nat>, records: seq<Place>, parts: seq<seq<byte>>)
    requires GivesText(lossy, msg, text, questions, records, parts)
    ensures TxtOf(lossy, msg) == Some(text)
  {
    var pos := questions[|questions| - 1];
    LastRecord(msg, pos, records);
    QuestionsExact(msg, 12, questions);
    AnswersExact(lossy, msg, pos, U16At(msg, 6), records);
    var r := records[|records| - 1];
    StringsExact(lossy, msg, r.data, r.end, parts);
    hide Answers, AfterQuestions, Strings, QuestionChain, TxtChain, Pieces;
  }
}

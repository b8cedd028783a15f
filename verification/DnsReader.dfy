/** The DNS side of the exit-address probe (exitip.rs; RFC 1035 sections 3.3.14 and 4.1). */
module DnsReader {
  import opened Bytes

  const QTYPE_TXT: u16 := 16

  /** from_utf8_lossy, whatever it does. */
  type Lossy = seq<byte> -> string

  /* ---- reading ---- */

  /** The position after a possibly compressed name. */
  function NameEndsAt(buf: seq<byte>, pos: nat): (r: Option<nat>)
    ensures r.Some? ==> pos < r.value <= |buf|
    decreases |buf| - pos
  {
    if pos >= |buf| then None
    else
      var len: int := buf[pos];
      if len >= 0xc0 then (if pos + 2 <= |buf| then Some(pos + 2) else None)
      else if len == 0 then Some(pos + 1)
      else if pos + 1 + len > |buf| then None
      else NameEndsAt(buf, pos + 1 + len)
  }

  method SkipName(buf: seq<byte>, start: nat) returns (r: Option<nat>)
    ensures r == NameEndsAt(buf, start)
  {
    var pos := start;
    while true
      invariant NameEndsAt(buf, start) == NameEndsAt(buf, pos)
      decreases |buf| - pos
    {
      if pos >= |buf| {
        return None;
      }
      var len: int := buf[pos];
      if len >= 0xc0 {
        return if pos + 2 <= |buf| then Some(pos + 2) else None;
      }
      if len == 0 {
        return Some(pos + 1);
      }
      pos := pos + 1 + len;
      if pos > |buf| {
        return None;
      }
    }
  }

  /** The position after `n` questions; it is not checked against the end of the message. */
  function AfterQuestions(msg: seq<byte>, pos: nat, n: nat): Option<nat>
    decreases n
  {
    if n == 0 then Some(pos)
    else
      match NameEndsAt(msg, pos)
      case None => None
      case Some(p) => AfterQuestions(msg, p + 4, n - 1)
  }

  /** The joined character-strings in msg[p..end], or None when one runs past `end`. */
  function Strings(lossy: Lossy, msg: seq<byte>, p: nat, end: nat): Option<string>
    requires end <= |msg|
    decreases end - p
  {
    if p >= end then Some("")
    else
      var len: int := msg[p];
      if p + 1 + len > end then None
      else
        Joined(lossy(msg[p + 1..p + 1 + len]), Strings(lossy, msg, p + 1 + len, end))
  }

  function Answers(lossy: Lossy, msg: seq<byte>, pos: nat, n: nat): Option<string>
    decreases n
  {
    if n == 0 then None
    else
      match NameEndsAt(msg, pos)
      case None => None
      case Some(p) =>
        if p + 10 > |msg| then None
        else
          var rdlen: int := U16At(msg, p + 8);
          var end := p + 10 + rdlen;
          if end > |msg| then None
          else if U16At(msg, p) == QTYPE_TXT then
            var out := Strings(lossy, msg, p + 10, end);
            if out == Some("") then None else out
          else Answers(lossy, msg, end, n - 1)
  }

  function TxtOf(lossy: Lossy, msg: seq<byte>): Option<string> {
    if |msg| < 12 then None
    else
      match AfterQuestions(msg, 12, U16At(msg, 4))
      case None => None
      case Some(pos) => Answers(lossy, msg, pos, U16At(msg, 6))
  }

  /** Text already read, followed by the outcome of reading the rest. */
  function Joined(out: string, rest: Option<string>): Option<string> {
    if rest.None? then None else Some(out + rest.value)
  }

  lemma {:induction false} JoinedStep(out: string, piece: string, rest: Option<string>)
    ensures Joined(out, Joined(piece, rest)) == Joined(out + piece, rest)
    ensures Joined("", rest) == rest
  {
    if rest.Some? {
      assert out + (piece + rest.value) == (out + piece) + rest.value;
      assert "" + rest.value == rest.value;
    }
  }

  method ReadStrings(lossy: Lossy, msg: seq<byte>, pos: nat, end: nat) returns (r: Option<string>)
    requires end <= |msg|
    ensures r == Strings(lossy, msg, pos, end)
  {
    var out, p := "", pos;
    JoinedStep("", "", Strings(lossy, msg, pos, end));
    while p < end
      invariant Strings(lossy, msg, pos, end) == Joined(out, Strings(lossy, msg, p, end))
    {
      var len: int := msg[p];
      var stop := p + 1 + len;
      if stop > end {
        return None;
      }
      var piece := lossy(msg[p + 1..stop]);
      JoinedStep(out, piece, Strings(lossy, msg, stop, end));
      out, p := out + piece, stop;
    }
    assert out + "" == out;
    return Some(out);
  }

  /** Total on every byte string: each index is checked before it is used. */
  method FirstTxtRecord(lossy: Lossy, msg: seq<byte>) returns (r: Option<string>)
    ensures r == TxtOf(lossy, msg)
  {
    hide Strings, NameEndsAt;
    if |msg| < 12 {
      return None;
    }
    var qd, an := U16At(msg, 4), U16At(msg, 6);
    var pos: nat := 12;
    for i := 0 to qd
      invariant AfterQuestions(msg, 12, qd) == AfterQuestions(msg, pos, qd - i)
    {
      var next := SkipName(msg, pos);
      if next.None? {
        return None;
      }
      pos := next.value + 4;
    }
    ghost var first := pos;
    for i := 0 to an
      invariant Answers(lossy, msg, first, an) == Answers(lossy, msg, pos, an - i)
    {
      var next := SkipName(msg, pos);
      if next.None? {
        return None;
      }
      pos := next.value;
      if pos + 10 > |msg| {
        return None;
      }
      var rtype, rdlen: int := U16At(msg, pos), U16At(msg, pos + 8);
      pos := pos + 10;
      var end := pos + rdlen;
      if end > |msg| {
        return None;
      }
      if rtype == QTYPE_TXT {
        var out := ReadStrings(lossy, msg, pos, end);
        return if out == Some("") then None else out;
      }
      pos := end;
    }
    return None;
  }

  /* ---- messages on the wire ---- */

  /** A name is its labels, closed by the root or by a compression pointer. */
  datatype Name = Name(labels: seq<seq<byte>>, pointer: Option<nat>)

  datatype Question = Question(name: Name, qtype: u16, qclass: u16)

  datatype Record = Record(name: Name, rtype: u16, rclass: u16, ttl: seq<byte>, rdata: seq<byte>)

  datatype Message = Message(id: u16, flags: seq<byte>, questions: seq<Question>, answers: seq<Record>, counts: seq<byte>, rest: seq<byte>)

  predicate ValidLabel(l: seq<byte>) {
    1 <= |l| <= 63
  }

  predicate ValidName(n: Name) {
    (forall i :: 0 <= i < |n.labels| ==> ValidLabel(n.labels[i])) && (n.pointer.Some? ==> n.pointer.value < 0x4000)
  }

  function Labels(ls: seq<seq<byte>>): seq<byte>
    requires forall i :: 0 <= i < |ls| ==> |ls[i]| < 256
  {
    if ls == [] then [] else [|ls[0]|] + ls[0] + Labels(ls[1..])
  }

  function NameEnd(pointer: Option<nat>): seq<byte>
    requires pointer.Some? ==> pointer.value < 0x4000
  {
    if pointer.None? then [0] else [0xc0 + pointer.value / 256, pointer.value % 256]
  }

  function NameBytes(n: Name): seq<byte>
    requires ValidName(n)
  {
    Labels(n.labels) + NameEnd(n.pointer)
  }

  function QuestionBytes(q: Question): seq<byte>
    requires ValidName(q.name)
  {
    NameBytes(q.name) + Be16(q.qtype) + Be16(q.qclass)
  }

  predicate ValidRecord(r: Record) {
    ValidName(r.name) && |r.ttl| == 4 && |r.rdata| < 0x1_0000
  }

  function RecordBytes(r: Record): seq<byte>
    requires ValidRecord(r)
  {
    NameBytes(r.name) + (Be16(r.rtype) + Be16(r.rclass) + r.ttl + Be16(|r.rdata|)) + r.rdata
  }

  predicate ValidMessage(m: Message) {
    && |m.flags| == 2 && |m.counts| == 4
    && |m.questions| < 0x1_0000 && |m.answers| < 0x1_0000
    && (forall i :: 0 <= i < |m.questions| ==> ValidName(m.questions[i].name))
    && (forall i :: 0 <= i < |m.answers| ==> ValidRecord(m.answers[i]))
  }

  function QuestionsBytes(qs: seq<Question>): seq<byte>
    requires forall i :: 0 <= i < |qs| ==> ValidName(qs[i].name)
  {
    if qs == [] then [] else QuestionBytes(qs[0]) + QuestionsBytes(qs[1..])
  }

  function RecordsBytes(rs: seq<Record>): seq<byte>
    requires forall i :: 0 <= i < |rs| ==> ValidRecord(rs[i])
  {
    if rs == [] then [] else
      assert ValidRecord(rs[0]);
      RecordBytes(rs[0]) + RecordsBytes(rs[1..])
  }

  function Header(m: Message): seq<byte>
    requires ValidMessage(m)
  {
    Be16(m.id) + m.flags + Be16(|m.questions|) + Be16(|m.answers|) + m.counts
  }

  function MessageBytes(m: Message): seq<byte>
    requires ValidMessage(m)
  {
    Header(m) + QuestionsBytes(m.questions) + RecordsBytes(m.answers) + m.rest
  }

  /** The text of TXT rdata: its character-strings decoded one by one and joined. */
  function TextOf(lossy: Lossy, rdata: seq<byte>): Option<string> {
    Strings(lossy, rdata, 0, |rdata|)
  }

  /** What the reader makes of an answer section: the first TXT record decides, even when it is empty. */
  function TextOfFirst(lossy: Lossy, rs: seq<Record>): Option<string> {
    if rs == [] then None
    else if rs[0].rtype == QTYPE_TXT then
      var t := TextOf(lossy, rs[0].rdata);
      if t == Some("") then None else t
    else TextOfFirst(lossy, rs[1..])
  }

  /* ---- the reader finds what was encoded ---- */

  lemma {:induction false} NameSkipped(n: Name, before: seq<byte>, after: seq<byte>)
    requires ValidName(n)
    ensures NameEndsAt(before + NameBytes(n) + after, |before|) == Some(|before| + |NameBytes(n)|)
    decreases |n.labels|
  {
    var buf := before + NameBytes(n) + after;
    if n.labels == [] {
      assert NameBytes(n) == NameEnd(n.pointer);
      assert buf[|before|] == NameEnd(n.pointer)[0];
    } else {
      var l, rest := n.labels[0], Name(n.labels[1..], n.pointer);
      assert ValidLabel(l);
      forall i | 0 <= i < |rest.labels| ensures ValidLabel(rest.labels[i]) {
        assert rest.labels[i] == n.labels[i + 1];
      }
      assert NameBytes(n) == ([|l|] + l) + NameBytes(rest);
      assert buf == (before + ([|l|] + l)) + NameBytes(rest) + after;
      assert buf[|before|] == |l|;
      NameSkipped(rest, before + ([|l|] + l), after);
    }
  }

  lemma {:induction false} QuestionsSkipped(qs: seq<Question>, before: seq<byte>, after: seq<byte>)
    requires forall i :: 0 <= i < |qs| ==> ValidName(qs[i].name)
    ensures AfterQuestions(before + QuestionsBytes(qs) + after, |before|, |qs|) == Some(|before| + |QuestionsBytes(qs)|)
    decreases |qs|
  {
    hide QuestionBytes;
    if qs != [] {
      var q, more := qs[0], QuestionsBytes(qs[1..]);
      assert before + QuestionsBytes(qs) + after == before + QuestionBytes(q) + (more + after);
      OneQuestion(q, before, more + after, |qs|);
      assert before + QuestionsBytes(qs) + after == (before + QuestionBytes(q)) + more + after;
      QuestionsSkipped(qs[1..], before + QuestionBytes(q), after);
    }
  }

  lemma {:induction false} OneQuestion(q: Question, before: seq<byte>, after: seq<byte>, n: nat)
    requires ValidName(q.name) && n > 0
    ensures var buf := before + QuestionBytes(q) + after;
      AfterQuestions(buf, |before|, n) == AfterQuestions(buf, |before + QuestionBytes(q)|, n - 1)
  {
    hide NameEndsAt, NameBytes;
    var fixed := Be16(q.qtype) + Be16(q.qclass);
    assert QuestionBytes(q) == NameBytes(q.name) + fixed;
    assert before + QuestionBytes(q) + after == before + NameBytes(q.name) + (fixed + after);
    NameSkipped(q.name, before, fixed + after);
  }

  /** Character-strings mean the same wherever they lie. */
  lemma {:induction false} StringsMoved(lossy: Lossy, before: seq<byte>, data: seq<byte>, after: seq<byte>, p: nat)
    requires p <= |data|
    ensures Strings(lossy, before + data + after, |before| + p, |before| + |data|) == Strings(lossy, data, p, |data|)
    decreases |data| - p
  {
    if p < |data| {
      var buf := before + data + after;
      var len: int := data[p];
      assert buf[|before| + p] == data[p];
      if p + 1 + len <= |data| {
        assert buf[|before| + p + 1..|before| + p + 1 + len] == data[p + 1..p + 1 + len];
        StringsMoved(lossy, before, data, after, p + 1 + len);
      }
    }
  }

  lemma {:induction false} RecordFields(r: Record, before: seq<byte>, after: seq<byte>)
    requires ValidRecord(r)
    ensures var buf, p := before + RecordBytes(r) + after, |before| + |NameBytes(r.name)|;
      && NameEndsAt(buf, |before|) == Some(p)
      && p + 10 + |r.rdata| == |before| + |RecordBytes(r)| && U16At(buf, p) == r.rtype && U16At(buf, p + 8) == |r.rdata|
      && buf == buf[..p + 10] + r.rdata + after
  {
    var name, fixed := NameBytes(r.name), Be16(r.rtype) + Be16(r.rclass) + r.ttl + Be16(|r.rdata|);
    var buf, p := before + RecordBytes(r) + after, |before| + |name|;
    assert buf == before + name + (fixed + r.rdata + after);
    NameSkipped(r.name, before, fixed + r.rdata + after);
    assert forall i :: 0 <= i < 10 ==> buf[p + i] == fixed[i];
    assert buf == (before + name + fixed) + r.rdata + after;
    assert buf[..p + 10] == before + name + fixed;
  }

  lemma {:induction false} AnswersFound(lossy: Lossy, rs: seq<Record>, before: seq<byte>, after: seq<byte>)
    requires forall i :: 0 <= i < |rs| ==> ValidRecord(rs[i])
    ensures Answers(lossy, before + RecordsBytes(rs) + after, |before|, |rs|) == TextOfFirst(lossy, rs)
    decreases |rs|
  {
    hide RecordBytes, TextOf;
    if rs != [] {
      assert ValidRecord(rs[0]);
      var r, more := rs[0], RecordsBytes(rs[1..]);
      var buf := before + RecordsBytes(rs) + after;
      assert buf == before + RecordBytes(r) + (more + after);
      assert buf == (before + RecordBytes(r)) + more + after;
      AnswersFound(lossy, rs[1..], before + RecordBytes(r), after);
      OneAnswer(lossy, r, before, more + after, |rs|);
    }
  }

  lemma {:induction false} OneAnswer(lossy: Lossy, r: Record, before: seq<byte>, after: seq<byte>, n: nat)
    requires ValidRecord(r) && n > 0
    ensures var buf, t := before + RecordBytes(r) + after, TextOf(lossy, r.rdata);
      Answers(lossy, buf, |before|, n) ==
        if r.rtype == QTYPE_TXT then (if t == Some("") then None else t)
        else Answers(lossy, buf, |before + RecordBytes(r)|, n - 1)
  {
    hide NameEndsAt, Strings, RecordBytes, NameBytes;
    var buf, p := before + RecordBytes(r) + after, |before| + |NameBytes(r.name)|;
    RecordFields(r, before, after);
    StringsMoved(lossy, buf[..p + 10], r.rdata, after, 0);
  }

  /** For every well-formed response, whatever its names end in and whatever follows the answers, the
      reader returns the text of the first TXT record, or nothing when that text is empty or malformed. */
  lemma {:induction false} ReadsFirstTxt(lossy: Lossy, m: Message)
    requires ValidMessage(m)
    ensures TxtOf(lossy, MessageBytes(m)) == TextOfFirst(lossy, m.answers)
  {
    hide QuestionsBytes, RecordsBytes, AfterQuestions, Answers, TextOfFirst;
    var msg, h := MessageBytes(m), Header(m);
    var qs, rs := QuestionsBytes(m.questions), RecordsBytes(m.answers);
    assert msg == h + qs + (rs + m.rest);
    assert msg == (h + qs) + rs + m.rest;
    assert |h| == 12 && msg[4] == h[4] && msg[5] == h[5] && msg[6] == h[6] && msg[7] == h[7];
    assert U16At(msg, 4) == |m.questions| && U16At(msg, 6) == |m.answers|;
    QuestionsSkipped(m.questions, h, rs + m.rest);
    AnswersFound(lossy, m.answers, h + qs, m.rest);
  }

  /** The first TXT record with any text in it. */
  function FirstNonEmptyText(lossy: Lossy, rs: seq<Record>): Option<string> {
    if rs == [] then None
    else if rs[0].rtype == QTYPE_TXT && TextOf(lossy, rs[0].rdata) != Some("") then TextOf(lossy, rs[0].rdata)
    else FirstNonEmptyText(lossy, rs[1..])
  }

  predicate FirstTxtIsEmpty(lossy: Lossy, rs: seq<Record>) {
    rs != [] && if rs[0].rtype == QTYPE_TXT then TextOf(lossy, rs[0].rdata) == Some("") else FirstTxtIsEmpty(lossy, rs[1..])
  }

  /** The reader stops at an empty first TXT record: it finds the first non-empty text exactly when the
      first TXT record is not an empty one in front of a record that has text. */
  lemma {:induction false} EmptyFirstTxtHides(lossy: Lossy, m: Message)
    requires ValidMessage(m)
    ensures TxtOf(lossy, MessageBytes(m)) == FirstNonEmptyText(lossy, m.answers)
       <==> !(FirstTxtIsEmpty(lossy, m.answers) && FirstNonEmptyText(lossy, m.answers).Some?)
  {
    ReadsFirstTxt(lossy, m);
    FirstAgainstNonEmpty(lossy, m.answers);
  }

  lemma {:induction false} FirstAgainstNonEmpty(lossy: Lossy, rs: seq<Record>)
    ensures if FirstTxtIsEmpty(lossy, rs) then TextOfFirst(lossy, rs) == None
            else TextOfFirst(lossy, rs) == FirstNonEmptyText(lossy, rs)
  {
    if rs != [] && rs[0].rtype != QTYPE_TXT {
      FirstAgainstNonEmpty(lossy, rs[1..]);
    }
  }

  lemma {:induction false} EmptyRdata(lossy: Lossy, rdata: seq<byte>)
    requires rdata in {[], [0]} && lossy([]) == ""
    ensures TextOf(lossy, rdata) == Some("")
  {
    if |rdata| == 0 {
      assert Strings(lossy, rdata, 0, 0) == Some("");
    } else {
      var none: seq<byte> := rdata[1..1];
      assert none == [] && rdata[0] == 0 && |rdata| == 1;
      assert lossy(none) == "";
      assert Strings(lossy, rdata, 1, 1) == Some("");
      JoinedStep("", "", Some(""));
      assert Strings(lossy, rdata, 0, 1) == Joined("", Some(""));
    }
  }

  /** The hiding happens in every response whose first answer is an empty TXT record in front of one with text. */
  lemma {:induction false} HiddenText(lossy: Lossy, m: Message, text: string)
    requires ValidMessage(m) && |m.answers| >= 2 && text != ""
    requires m.answers[0].rtype == QTYPE_TXT && m.answers[0].rdata in {[], [0]} && lossy([]) == ""
    requires m.answers[1].rtype == QTYPE_TXT && TextOf(lossy, m.answers[1].rdata) == Some(text)
    ensures TxtOf(lossy, MessageBytes(m)) == None && FirstNonEmptyText(lossy, m.answers) == Some(text)
  {
    hide MessageBytes, TxtOf, ValidRecord, TextOf, ValidName;
    ReadsFirstTxt(lossy, m);
    EmptyRdata(lossy, m.answers[0].rdata);
    assert m.answers[1..][0] == m.answers[1];
  }
}

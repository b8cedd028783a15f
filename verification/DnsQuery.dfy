/** Asking and recognising a DNS question (exitip.rs, build_query and question_matches). A name is given as
    its labels, the pieces of the dotted text; empty pieces are skipped on both sides. */
module DnsQuery {
  import opened Bytes

  const MAX_LABEL: nat := 63

  function Clipped(piece: seq<byte>): seq<byte> {
    if |piece| <= MAX_LABEL then piece else piece[..MAX_LABEL]
  }

  function LabelBytes(labels: seq<seq<byte>>): seq<byte> {
    if labels == [] then [] else OneLabel(labels[0]) + LabelBytes(labels[1..])
  }

  function OneLabel(l: seq<byte>): seq<byte> {
    if l == [] then [] else [|Clipped(l)|] + Clipped(l)
  }

  function QuerySection(labels: seq<seq<byte>>, qtype: u16, qclass: u16): seq<byte> {
    LabelBytes(labels) + [0] + Be16(qtype) + Be16(qclass)
  }

  lemma {:induction false} OneMore(b: seq<byte>, labels: seq<seq<byte>>)
    requires labels != []
    ensures b + LabelBytes(labels) == (b + OneLabel(labels[0])) + LabelBytes(labels[1..])
    ensures b + OneLabel(labels[0]) == if labels[0] == [] then b else b + [|Clipped(labels[0])|] + Clipped(labels[0])
  {
    OneLabelIs(b, labels[0]);
    hide OneLabel, Clipped;
    Apart3(b, OneLabel(labels[0]), LabelBytes(labels[1..]));
  }

  lemma {:induction false} OneLabelIs(b: seq<byte>, l: seq<byte>)
    ensures b + OneLabel(l) == if l == [] then b else b + [|Clipped(l)|] + Clipped(l)
  {
    assert b + [] == b;
  }

  lemma {:induction false} Apart3(a: seq<byte>, b: seq<byte>, c: seq<byte>)
    ensures a + (b + c) == (a + b) + c
  {
  }

  method EncodeLabels(labels: seq<seq<byte>>) returns (b: seq<byte>)
    ensures b == LabelBytes(labels)
  {
    b := [];
    assert labels[0..] == labels;
    for i := 0 to |labels|
      invariant b + LabelBytes(labels[i..]) == LabelBytes(labels)
    {
      assert labels[i..][1..] == labels[i + 1..];
      OneMore(b, labels[i..]);
      if labels[i] != [] {
        b := b + [|Clipped(labels[i])|] + Clipped(labels[i]);
      }
    }
    assert labels[|labels|..] == [] && b + [] == b;
  }

  method BuildQuery(id: u16, labels: seq<seq<byte>>, qtype: u16, qclass: u16) returns (q: seq<byte>)
    ensures q == Be16(id) + [0x01, 0x00, 0, 1, 0, 0, 0, 0, 0, 0] + QuerySection(labels, qtype, qclass)
  {
    q := Be16(id) + [0x01, 0x00] + Be16(1) + [0, 0, 0, 0, 0, 0];
    var name := EncodeLabels(labels);
    assert q == Be16(id) + [0x01, 0x00, 0, 1, 0, 0, 0, 0, 0, 0];
    q := q + (name + [0] + Be16(qtype) + Be16(qclass));
  }

  function Lower(b: byte): byte {
    if 65 <= b <= 90 then b + 32 else b
  }

  predicate SameIgnoringCase(a: seq<byte>, b: seq<byte>) {
    |a| == |b| && forall i :: 0 <= i < |a| ==> Lower(a[i]) == Lower(b[i])
  }

  /** Two names of one length whose bytes are the same, or the same letter in the other case. */
  lemma {:induction false} SameLetters(a: seq<byte>, b: seq<byte>)
    ensures SameIgnoringCase(a, b) <==> |a| == |b| && forall i :: 0 <= i < |a| ==>
      a[i] == b[i] || (65 <= a[i] <= 90 && b[i] == a[i] + 32) || (97 <= a[i] <= 122 && b[i] == a[i] - 32)
  {
  }

  /** The position after labels that match, or None. */
  function AfterLabels(msg: seq<byte>, pos: nat, labels: seq<seq<byte>>): Option<nat>
    decreases |labels|
  {
    if labels == [] then Some(pos)
    else if labels[0] == [] then AfterLabels(msg, pos, labels[1..])
    else if pos >= |msg| || msg[pos] != |labels[0]| then None
    else if pos + 1 + |labels[0]| > |msg| then None
    else if !SameIgnoringCase(msg[pos + 1..pos + 1 + |labels[0]|], labels[0]) then None
    else AfterLabels(msg, pos + 1 + |labels[0]|, labels[1..])
  }

  predicate EndsQuestion(msg: seq<byte>, pos: nat, qtype: u16, qclass: u16) {
    pos + 5 <= |msg| && msg[pos] == 0 && U16At(msg, pos + 1) == qtype && U16At(msg, pos + 3) == qclass
  }

  predicate Answers(msg: seq<byte>, id: u16, labels: seq<seq<byte>>, qtype: u16, qclass: u16) {
    && |msg| >= 12 && U16At(msg, 0) == id && msg[2] >= 0x80 && U16At(msg, 4) == 1
    && AfterLabels(msg, 12, labels).Some? && EndsQuestion(msg, AfterLabels(msg, 12, labels).value, qtype, qclass)
  }

  method QuestionMatches(msg: seq<byte>, id: u16, labels: seq<seq<byte>>, qtype: u16, qclass: u16) returns (r: bool)
    ensures r <==> Answers(msg, id, labels, qtype, qclass)
  {
    if |msg| < 12 || U16At(msg, 0) != id || msg[2] / 0x80 == 0 || U16At(msg, 4) != 1 {
      return false;
    }
    var pos := 12;
    assert labels[0..] == labels;
    for i := 0 to |labels|
      invariant 12 <= pos <= |msg| && AfterLabels(msg, 12, labels) == AfterLabels(msg, pos, labels[i..])
    {
      var piece := labels[i];
      assert labels[i..][1..] == labels[i + 1..];
      if piece == [] {
        continue;
      }
      if pos >= |msg| || msg[pos] != |piece| {
        return false;
      }
      pos := pos + 1;
      var end := pos + |piece|;
      if end > |msg| || !SameIgnoringCase(msg[pos..end], piece) {
        return false;
      }
      pos := end;
    }
    if pos >= |msg| || msg[pos] != 0 {
      return false;
    }
    pos := pos + 1;
    if pos + 4 > |msg| {
      return false;
    }
    r := U16At(msg, pos) == qtype && U16At(msg, pos + 2) == qclass;
  }

  predicate AllFit(labels: seq<seq<byte>>) {
    forall i :: 0 <= i < |labels| ==> |labels[i]| <= 63
  }

  lemma {:induction false} LabelsRead(labels: seq<seq<byte>>, before: seq<byte>, after: seq<byte>)
    ensures AfterLabels(before + LabelBytes(labels) + after, |before|, labels)
         == if AllFit(labels) then Some(|before| + |LabelBytes(labels)|) else None
    decreases |labels|
  {
    hide *;
    if labels == [] {
      NoLabels(before, after);
    } else {
      AllFitFront(labels);
      FirstLabel(labels, before, after);
      OneLabelRead(labels, before, LabelBytes(labels[1..]) + after);
      LabelsRead(labels[1..], before + OneLabel(labels[0]), after);
    }
  }

  lemma {:induction false} NoLabels(before: seq<byte>, after: seq<byte>)
    ensures LabelBytes([]) == [] && AllFit([]) && AfterLabels(before + LabelBytes([]) + after, |before|, []) == Some(|before|)
  {
  }

  lemma {:induction false} FirstLabel(labels: seq<seq<byte>>, before: seq<byte>, after: seq<byte>)
    requires labels != []
    ensures LabelBytes(labels) == OneLabel(labels[0]) + LabelBytes(labels[1..])
    ensures before + LabelBytes(labels) + after == before + OneLabel(labels[0]) + (LabelBytes(labels[1..]) + after)
    ensures before + LabelBytes(labels) + after == (before + OneLabel(labels[0])) + LabelBytes(labels[1..]) + after
  {
    hide OneLabel;
    Around(before, OneLabel(labels[0]), LabelBytes(labels[1..]), after);
  }

  lemma {:induction false} OneLabelRead(labels: seq<seq<byte>>, before: seq<byte>, after: seq<byte>)
    requires labels != []
    ensures var msg := before + OneLabel(labels[0]) + after;
      AfterLabels(msg, |before|, labels) ==
        if |labels[0]| <= MAX_LABEL then AfterLabels(msg, |before + OneLabel(labels[0])|, labels[1..]) else None
  {
    var l := labels[0];
    if l == [] {
      assert before + [] == before;
    } else {
      LabelFields(l, before, after);
      hide OneLabel, Clipped;
    }
  }

  lemma {:induction false} LabelFields(l: seq<byte>, before: seq<byte>, after: seq<byte>)
    requires l != []
    ensures var msg, p := before + OneLabel(l) + after, |before|;
      && p < |msg| && msg[p] == |Clipped(l)| && (|l| > MAX_LABEL ==> |Clipped(l)| == MAX_LABEL)
      && (|l| <= MAX_LABEL ==> |Clipped(l)| == |l| && p + 1 + |l| == |before + OneLabel(l)| <= |msg| && SameIgnoringCase(msg[p + 1..p + 1 + |l|], l))
  {
    var msg, p := before + OneLabel(l) + after, |before|;
    if |l| <= MAX_LABEL {
      assert msg[p + 1..p + 1 + |l|] == l;
      CaseReflexive(l);
    }
    hide SameIgnoringCase;
  }

  lemma {:induction false} AllFitFront(labels: seq<seq<byte>>)
    requires labels != []
    ensures AllFit(labels) <==> |labels[0]| <= MAX_LABEL && AllFit(labels[1..])
  {
    assert forall i :: 0 < i < |labels| ==> labels[i] == labels[1..][i - 1];
  }

  lemma {:induction false} CaseReflexive(l: seq<byte>)
    ensures SameIgnoringCase(l, l)
  {
  }

  /** A response that repeats the question of a query built for a name is recognised exactly when every
      label of the name fits in a label; longer ones are clipped when asked but not when compared. */
  lemma {:induction false} EchoRecognised(id: u16, flags: seq<byte>, counts: seq<byte>, labels: seq<seq<byte>>, qtype: u16, qclass: u16, rest: seq<byte>)
    requires |flags| == 2 && flags[0] >= 0x80 && |counts| == 6
    ensures Answers(Be16(id) + flags + Be16(1) + counts + QuerySection(labels, qtype, qclass) + rest, id, labels, qtype, qclass)
       <==> AllFit(labels)
  {
    hide AfterLabels, AllFit, LabelBytes;
    var head := Be16(id) + flags + Be16(1) + counts;
    var tail := [0] + Be16(qtype) + Be16(qclass) + rest;
    var msg := head + QuerySection(labels, qtype, qclass) + rest;
    assert msg == head + LabelBytes(labels) + tail;
    assert |head| == 12 && forall i :: 0 <= i < 12 ==> msg[i] == head[i];
    LabelsRead(labels, head, tail);
    var pos := 12 + |LabelBytes(labels)|;
    assert forall i :: 0 <= i < 5 ==> msg[pos + i] == tail[i];
  }

  /** The wire form of a name: lengths as they are, letters in either case. */
  predicate Spells(s: seq<byte>, labels: seq<seq<byte>>)
    decreases |labels|
  {
    if labels == [] then s == []
    else
      var l := labels[0];
      if l == [] then Spells(s, labels[1..])
      else |s| > |l| && s[0] == |l| && SameIgnoringCase(s[1..1 + |l|], l) && Spells(s[1 + |l|..], labels[1..])
  }

  /** The labels lead from one place in a message to another exactly when what lies between spells them. */
  lemma {:induction false} SpellsBetween(msg: seq<byte>, pos: nat, end: nat, labels: seq<seq<byte>>)
    requires pos <= |msg|
    ensures AfterLabels(msg, pos, labels) == Some(end) <==> pos <= end <= |msg| && Spells(msg[pos..end], labels)
    decreases |labels|
  {
    if labels == [] {
      assert pos <= end <= |msg| && msg[pos..end] == [] ==> pos == end;
    } else if labels[0] == [] {
      SpellsBetween(msg, pos, end, labels[1..]);
    } else {
      if pos <= end <= |msg| {
        SpellsFirst(msg, pos, end, labels);
      }
      var mid := pos + 1 + |labels[0]|;
      if mid <= |msg| {
        SpellsBetween(msg, mid, end, labels[1..]);
      }
    }
  }

  lemma {:induction false} SpellsFirst(msg: seq<byte>, pos: nat, end: nat, labels: seq<seq<byte>>)
    requires pos <= |msg| && labels != [] && labels[0] != [] && pos <= end <= |msg|
    ensures var l, mid := labels[0], pos + 1 + |labels[0]|;
      Spells(msg[pos..end], labels) <==>
        (mid <= end && msg[pos] == |l| && SameIgnoringCase(msg[pos + 1..mid], l) && Spells(msg[mid..end], labels[1..]))
  {
    var s, l, mid := msg[pos..end], labels[0], pos + 1 + |labels[0]|;
    hide SameIgnoringCase;
    if mid <= end {
      SliceOf(msg, pos, end, 1, 1 + |l|);
      SliceOf(msg, pos, end, 1 + |l|, |s|);
      assert s[1 + |l|..|s|] == s[1 + |l|..];
    }
  }

  lemma {:induction false} SliceOf(msg: seq<byte>, pos: nat, end: nat, a: nat, b: nat)
    requires a <= b && pos + b <= end <= |msg|
    ensures msg[pos..end][a..b] == msg[pos + a..pos + b]
  {
    var x, y := msg[pos..end][a..b], msg[pos + a..pos + b];
    assert |x| == |y| == b - a;
    forall i | 0 <= i < b - a ensures x[i] == y[i] {
      assert x[i] == msg[pos..end][a + i] == msg[pos + a + i] == y[i];
    }
  }

  /** A message is recognised if and only if it is a response with this id and one question, and after its header come
      a spelling of the name, the root, and this type and class. */
  lemma {:induction false} RecognisedExactly(msg: seq<byte>, id: u16, labels: seq<seq<byte>>, qtype: u16, qclass: u16)
    ensures Answers(msg, id, labels, qtype, qclass) <==>
      (|msg| >= 12 && U16At(msg, 0) == id && msg[2] >= 0x80 && U16At(msg, 4) == 1 && HasQuestion(msg, labels, qtype, qclass))
  {
    hide AfterLabels, Spells;
    if |msg| >= 12 && AfterLabels(msg, 12, labels).Some? {
      var end := AfterLabels(msg, 12, labels).value;
      SpellsBetween(msg, 12, end, labels);
      if EndsQuestion(msg, end, qtype, qclass) {
        QuestionEnd(msg, end, qtype, qclass);
        assert HasQuestionTo(msg, end, labels, qtype, qclass);
      }
    }
    if end :| |msg| >= 12 && HasQuestionTo(msg, end, labels, qtype, qclass) {
      SpellsBetween(msg, 12, end, labels);
      QuestionEnd(msg, end, qtype, qclass);
    }
  }

  predicate HasQuestionTo(msg: seq<byte>, end: nat, labels: seq<seq<byte>>, qtype: u16, qclass: u16) {
    12 <= end <= |msg| && Spells(msg[12..end], labels) && [0] + Be16(qtype) + Be16(qclass) <= msg[end..]
  }

  ghost predicate HasQuestion(msg: seq<byte>, labels: seq<seq<byte>>, qtype: u16, qclass: u16) {
    exists end :: HasQuestionTo(msg, end, labels, qtype, qclass)
  }

  lemma {:induction false} QuestionEnd(msg: seq<byte>, end: nat, qtype: u16, qclass: u16)
    requires end <= |msg|
    ensures EndsQuestion(msg, end, qtype, qclass) <==> [0] + Be16(qtype) + Be16(qclass) <= msg[end..]
  {
    var tail := [0] + Be16(qtype) + Be16(qclass);
    if end + 5 <= |msg| {
      assert msg[end..][..5] == msg[end..end + 5];
      TwoBytes(msg[end + 1], msg[end + 2]);
      TwoBytes(msg[end + 3], msg[end + 4]);
    }
    if tail <= msg[end..] {
      assert forall i :: 0 <= i < 5 ==> msg[end + i] == tail[i];
    }
  }

  lemma {:induction false} TwoBytes(a: byte, b: byte)
    ensures Be16(256 * a + b) == [a, b]
  {
    var x: int, y: int := a, b;
    assert (256 * x + y) / 256 == x && (256 * x + y) % 256 == y;
  }
}

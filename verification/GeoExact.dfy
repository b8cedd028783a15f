/** What the two geodata scripts make of any file, in terms of the wire format: numbers in base 128, fields one after the other
    of which the last may be cut short, and the messages they make up. */
module GeoExact {
  import opened Bytes
  import opened GeoWire
  import opened GeoTrim

  /* ---- numbers ---- */

  /** Little-endian in base 128, seven bits a byte. */
  function Base128(b: seq<byte>): nat {
    if b == [] then 0 else b[0] % 128 + 128 * Base128(b[1..])
  }

  /** Bytes that all say that more follow. */
  predicate Unfinished(b: seq<byte>) {
    forall i :: 0 <= i < |b| ==> b[i] >= 128
  }

  predicate Spells(b: seq<byte>, v: nat) {
    b != [] && Unfinished(b[..|b| - 1]) && b[|b| - 1] < 128 && Base128(b) == v
  }

  lemma {:induction false} UnfinishedFront(x: byte, b: seq<byte>)
    ensures Unfinished([x] + b) <==> x >= 128 && Unfinished(b)
  {
    var all := [x] + b;
    if Unfinished(all) {
      assert all[0] >= 128;
      forall i | 0 <= i < |b| ensures b[i] >= 128 {
        assert all[i + 1] >= 128;
      }
    }
  }

  lemma {:induction false} SpellsFront(x: byte, b: seq<byte>, v: nat)
    requires x >= 128 && Spells(b, v)
    ensures Spells([x] + b, x % 128 + 128 * v)
  {
    var all := [x] + b;
    assert all[1..] == b && all[..|all| - 1] == [x] + b[..|b| - 1];
    UnfinishedFront(x, b[..|b| - 1]);
  }

  lemma {:induction false} NoMore(s: seq<byte>)
    ensures VarintOf(s) == None <==> Unfinished(s)
  {
    if s != [] {
      NoMore(s[1..]);
      UnfinishedFront(s[0], s[1..]);
      assert s == [s[0]] + s[1..];
    }
  }

  lemma {:induction false} Spelled(s: seq<byte>)
    requires VarintOf(s).Some?
    ensures Spells(s[..VarintOf(s).value.1], VarintOf(s).value.0)
  {
    if s[0] >= 128 {
      var (v, n) := VarintOf(s[1..]).value;
      Spelled(s[1..]);
      hide Spells;
      SpellsFront(s[0], s[1..][..n], v);
      assert s[..n + 1] == [s[0]] + s[1..][..n];
      assert VarintOf(s).value == (s[0] % 128 + 128 * v, n + 1);
    } else {
      assert s[..1][1..] == [] && s[..1][..0] == [];
      assert Base128(s[..1]) == s[0];
    }
  }

  lemma {:induction false} SpellsBehind(b: seq<byte>, v: nat)
    requires Spells(b, v)
    ensures |b| == 1 ==> b[0] < 128 && v == b[0]
    ensures |b| > 1 ==> b[0] >= 128 && Spells(b[1..], Base128(b[1..])) && v == b[0] - 128 + 128 * Base128(b[1..])
  {
    if |b| == 1 {
      assert b[1..] == [];
    } else {
      var c := b[1..];
      assert b[..|b| - 1][0] >= 128;
      assert c[..|c| - 1] == b[..|b| - 1][1..];
    }
  }

  lemma {:induction false} SpelledIsRead(b: seq<byte>, v: nat, t: seq<byte>)
    requires Spells(b, v)
    ensures VarintOf(b + t) == Some((v, |b|))
  {
    assert b != [];
    SpellsBehind(b, v);
    if |b| > 1 {
      var c := b[1..];
      hide Spells, Base128;
      SpelledIsRead(c, Base128(c), t);
      assert (b + t)[1..] == c + t;
    }
  }

  /** A number is read from the front of any bytes if and only if it is spelled there, and none only if no byte ends it. */
  lemma {:induction false} VarintExact(s: seq<byte>, v: nat, n: nat)
    ensures VarintOf(s) == Some((v, n)) <==> n <= |s| && Spells(s[..n], v)
    ensures VarintOf(s) == None <==> Unfinished(s)
  {
    NoMore(s);
    if VarintOf(s).Some? {
      Spelled(s);
    }
    if n <= |s| && Spells(s[..n], v) {
      hide Spells;
      SpelledIsRead(s[..n], v, s[n..]);
      assert s[..n] + s[n..] == s;
    }
  }

  /* ---- fields ---- */

  /** What is written of a field: its number and wire type, and its value or its length and bytes; of the last field of a message
      fewer bytes may be there than its length says. */
  ghost predicate FieldWritten(b: seq<byte>, f: Field, last: bool) {
    exists tag, number :: FieldParts(b, f, last, tag, number)
  }

  ghost predicate FieldParts(b: seq<byte>, f: Field, last: bool, tag: seq<byte>, number: seq<byte>) {
    match f
    case Number(num, value) => b == tag + number && Spells(tag, 8 * num) && Spells(number, value)
    case Chunk(num, payload) =>
      && b == tag + number + payload && Spells(tag, 8 * num + 2)
      && exists length: nat :: Spells(number, length) && (length == |payload| || (last && length > |payload|))
  }

  lemma {:induction false} OneFieldExact(s: seq<byte>)
    requires OneField(s).Some?
    ensures var (f, rest) := OneField(s).value;
      |rest| < |s| && s[|s| - |rest|..] == rest && FieldWritten(s[..|s| - |rest|], f, rest == [])
  {
    var (key, i) := VarintOf(s).value;
    Spelled(s);
    var (v, n) := VarintOf(s[i..]).value;
    Spelled(s[i..]);
    OneFieldParts(s, key, i, v, n);
  }

  lemma {:induction false} OneFieldParts(s: seq<byte>, key: nat, i: nat, v: nat, n: nat)
    requires VarintOf(s) == Some((key, i)) && VarintOf(s[i..]) == Some((v, n)) && key % 8 in {0, 2}
    requires Spells(s[..i], key) && Spells(s[i..][..n], v)
    ensures OneField(s).Some?
    ensures var (f, rest) := OneField(s).value;
      |rest| < |s| && s[|s| - |rest|..] == rest && FieldWritten(s[..|s| - |rest|], f, rest == [])
  {
    hide VarintOf, Spells;
    var (f, rest) := OneField(s).value;
    var t := s[i..][n..];
    assert t == s[i + n..];
    var b := s[..|s| - |rest|];
    assert s[..i] + s[i..][..n] == s[..i + n];
    if key % 8 == 2 {
      assert b == s[..i + n] + f.payload;
      assert 8 * f.num + 2 == key;
      assert v == |f.payload| || (rest == [] && v > |f.payload|);
    } else {
      assert 8 * f.num == key;
    }
    assert FieldParts(b, f, rest == [], s[..i], s[i..][..n]);
  }

  lemma {:induction false} TwoNumbers(tag: seq<byte>, key: nat, number: seq<byte>, v: nat, t: seq<byte>)
    requires Spells(tag, key) && Spells(number, v)
    ensures var s := tag + number + t;
      && VarintOf(s) == Some((key, |tag|)) && VarintOf(s[|tag|..]) == Some((v, |number|))
      && s[|tag|..][|number|..] == t && s != []
  {
    var s := tag + number + t;
    assert tag != [];
    SpelledIsRead(tag, key, number + t);
    SpelledIsRead(number, v, t);
    hide VarintOf, Spells;
    assert s == tag + (number + t) && s[|tag|..] == number + t;
  }

  lemma {:induction false} NumberIsRead(tag: seq<byte>, number: seq<byte>, num: nat, value: nat, rest: seq<byte>)
    requires Spells(tag, 8 * num) && Spells(number, value)
    ensures OneField(tag + number + rest) == Some((Number(num, value), rest))
  {
    TwoNumbers(tag, 8 * num, number, value, rest);
    hide VarintOf, Spells;
    assert (8 * num) % 8 == 0 && (8 * num) / 8 == num;
  }

  lemma {:induction false} ChunkIsRead(tag: seq<byte>, number: seq<byte>, num: nat, payload: seq<byte>, length: nat, rest: seq<byte>)
    requires Spells(tag, 8 * num + 2) && Spells(number, length)
    requires length == |payload| || (rest == [] && length > |payload|)
    ensures OneField(tag + number + payload + rest) == Some((Chunk(num, payload), rest))
  {
    var t := payload + rest;
    TwoNumbers(tag, 8 * num + 2, number, length, t);
    hide VarintOf, Spells;
    assert tag + number + payload + rest == tag + number + t;
    assert (8 * num + 2) % 8 == 2 && (8 * num + 2) / 8 == num;
    assert Head(t, length) == payload && Rest(t, length) == rest;
  }

  /** The other way: what is written is read. */
  lemma {:induction false} WrittenIsRead(b: seq<byte>, f: Field, rest: seq<byte>)
    requires FieldWritten(b, f, rest == [])
    ensures b != [] && OneField(b + rest) == Some((f, rest))
  {
    var tag, number :| FieldParts(b, f, rest == [], tag, number);
    assert tag != [];
    match f
    case Number(num, value) =>
      hide OneField, Spells;
      NumberIsRead(tag, number, num, value, rest);
    case Chunk(num, payload) =>
      var length: nat :| Spells(number, length) && (length == |payload| || (rest == [] && length > |payload|));
      hide OneField, Spells;
      ChunkIsRead(tag, number, num, payload, length, rest);
  }

  /* ---- messages ---- */

  /** Fields one after the other, the last one cut short or not. */
  ghost predicate Written(s: seq<byte>, fs: seq<Field>, parts: seq<seq<byte>>) {
    && |parts| == |fs| && Joins(parts) == s
    && forall i :: 0 <= i < |fs| ==> FieldWritten(parts[i], fs[i], i == |fs| - 1)
  }

  function Joins(parts: seq<seq<byte>>): seq<byte> {
    if parts == [] then [] else parts[0] + Joins(parts[1..])
  }

  lemma {:induction false} PartInFront(first: seq<byte>, f: Field, rest: seq<byte>, fs: seq<Field>, parts: seq<seq<byte>>)
    requires Written(rest, fs, parts) && FieldWritten(first, f, fs == [])
    ensures Written(first + rest, [f] + fs, [first] + parts)
  {
    hide FieldWritten;
    var all, gs := [first] + parts, [f] + fs;
    assert all[1..] == parts;
    forall i | 0 <= i < |gs| ensures FieldWritten(all[i], gs[i], i == |gs| - 1) {
      if i > 0 {
        assert FieldWritten(parts[i - 1], fs[i - 1], i - 1 == |fs| - 1);
      }
    }
  }

  lemma {:induction false} FieldsStep(s: seq<byte>)
    requires FieldsOf(s).Some? && s != []
    ensures OneField(s).Some?
    ensures var (f, rest) := OneField(s).value; FieldsOf(rest).Some? && FieldsOf(s).value == [f] + FieldsOf(rest).value
  {
    hide OneField;
  }

  lemma {:induction false} FirstOff(s: seq<byte>) returns (first: seq<byte>, f: Field, rest: seq<byte>)
    requires FieldsOf(s).Some? && s != []
    ensures s == first + rest && |rest| < |s| && FieldsOf(rest).Some? && FieldsOf(s).value == [f] + FieldsOf(rest).value
    ensures FieldWritten(first, f, FieldsOf(rest).value == [])
  {
    hide *;
    FieldsStep(s);
    OneFieldExact(s);
    f, rest := OneField(s).value.0, OneField(s).value.1;
    NoFields(rest);
    Rejoined(s, rest);
    first := s[..|s| - |rest|];
  }

  lemma {:induction false} Rejoined(s: seq<byte>, rest: seq<byte>)
    requires |rest| <= |s| && s[|s| - |rest|..] == rest
    ensures s == s[..|s| - |rest|] + rest
  {
  }

  lemma {:induction false} FieldsRead(s: seq<byte>) returns (parts: seq<seq<byte>>)
    requires FieldsOf(s).Some?
    ensures Written(s, FieldsOf(s).value, parts)
    decreases |s|
  {
    hide *;
    parts := [];
    if s == [] {
      NoneWritten();
    } else {
      var first, f, rest := FirstOff(s);
      parts := FieldsRead(rest);
      PartInFront(first, f, rest, FieldsOf(rest).value, parts);
      parts := [first] + parts;
    }
  }

  lemma {:induction false} NoneWritten()
    ensures FieldsOf([]) == Some([]) && Written([], [], [])
  {
  }

  lemma {:induction false} NoFields(s: seq<byte>)
    requires FieldsOf(s).Some?
    ensures s == [] <==> FieldsOf(s).value == []
  {
  }

  lemma {:induction false} WrittenTail(s: seq<byte>, fs: seq<Field>, parts: seq<seq<byte>>)
    requires Written(s, fs, parts) && fs != []
    ensures Written(Joins(parts[1..]), fs[1..], parts[1..]) && FieldWritten(parts[0], fs[0], fs[1..] == [])
    ensures s == parts[0] + Joins(parts[1..])
  {
    hide FieldWritten;
    var more := fs[1..];
    assert FieldWritten(parts[0], fs[0], 0 == |fs| - 1);
    forall i | 0 <= i < |more| ensures FieldWritten(parts[1..][i], more[i], i == |more| - 1) {
      assert FieldWritten(parts[i + 1], fs[i + 1], i + 1 == |fs| - 1);
    }
  }

  lemma {:induction false} FieldsFront(b: seq<byte>, f: Field, rest: seq<byte>, more: seq<Field>)
    requires b != [] && OneField(b + rest) == Some((f, rest)) && FieldsOf(rest) == Some(more)
    ensures FieldsOf(b + rest) == Some([f] + more)
  {
    hide OneField;
    assert (b + rest) != [];
  }

  lemma {:induction false} FirstWritten(s: seq<byte>, fs: seq<Field>, parts: seq<seq<byte>>)
    returns (b: seq<byte>, f: Field, rest: seq<byte>, more: seq<Field>, tail: seq<seq<byte>>)
    requires Written(s, fs, parts) && fs != []
    ensures s == b + rest && fs == [f] + more && |more| < |fs|
    ensures Written(rest, more, tail) && FieldWritten(b, f, more == [])
  {
    WrittenTail(s, fs, parts);
    b, f, rest, more, tail := parts[0], fs[0], Joins(parts[1..]), fs[1..], parts[1..];
  }

  lemma {:induction false} WrittenAreRead(s: seq<byte>, fs: seq<Field>, parts: seq<seq<byte>>)
    requires Written(s, fs, parts)
    ensures FieldsOf(s) == Some(fs) && (s == [] <==> fs == [])
    decreases |fs|
  {
    if fs == [] {
      NoneWritten();
      assert s == [];
    } else {
      hide *;
      var b, f, rest, more, tail := FirstWritten(s, fs, parts);
      WrittenAreRead(rest, more, tail);
      WrittenIsRead(b, f, rest);
      FieldsFront(b, f, rest, more);
    }
  }

  /** Any bytes are read as these fields if and only if they are what is written of them. */
  lemma {:induction false} FieldsExact(s: seq<byte>, fs: seq<Field>)
    ensures FieldsOf(s) == Some(fs) <==> exists parts :: Written(s, fs, parts)
  {
    if FieldsOf(s) == Some(fs) {
      var parts := FieldsRead(s);
    }
    if parts :| Written(s, fs, parts) {
      WrittenAreRead(s, fs, parts);
    }
  }

  /* ---- the name of an entry ---- */

  /** A field the search for a name steps over: any but a length-delimited field 1, fixed-width ones included. */
  ghost predicate SteppedOver(b: seq<byte>, last: bool) {
    || (exists f :: NotName(f) && FieldWritten(b, f, last))
    || (exists tag, key :: FixedBehind(tag, key, b, last))
  }

  predicate NotName(f: Field) {
    !(f.Chunk? && f.num == 1)
  }

  ghost predicate FixedBehind(tag: seq<byte>, key: nat, b: seq<byte>, last: bool) {
    tag <= b && Spells(tag, key) && FixedWidth(key, |b| - |tag|, last)
  }

  predicate FixedWidth(key: nat, width: nat, last: bool) {
    || (key % 8 == 5 && (width == 4 || (last && width < 4)))
    || (key % 8 == 1 && (width == 8 || (last && width < 8)))
  }

  /** What the search makes of the bytes it stops at: the end of the entry, a name, another wire type, or a number without end. */
  ghost predicate NameEnds(dec: Text, tail: seq<byte>, found: Outcome<Option<string>>) {
    match found
    case Done(Some(name)) => exists b, p :: NameAt(b, p, tail) && name == dec(p)
    case Done(None) => tail == [] || exists tag, key :: OtherType(tag, key, tail)
    case Raises => tail != [] && (Unfinished(tail) || exists tag, key :: EndlessBehind(tag, key, tail))
    case _ => false
  }

  ghost predicate NameAt(b: seq<byte>, p: seq<byte>, tail: seq<byte>) {
    b <= tail && FieldWritten(b, Chunk(1, p), b == tail)
  }

  ghost predicate OtherType(tag: seq<byte>, key: nat, tail: seq<byte>) {
    tag <= tail && Spells(tag, key) && key % 8 in {3, 4, 6, 7}
  }

  ghost predicate EndlessBehind(tag: seq<byte>, key: nat, tail: seq<byte>) {
    tag <= tail && Spells(tag, key) && key % 8 in {0, 2} && Unfinished(tail[|tag|..])
  }

  ghost predicate AllSteppedOver(steps: seq<seq<byte>>, tail: seq<byte>) {
    forall i :: 0 <= i < |steps| ==> steps[i] != [] && SteppedOver(steps[i], i == |steps| - 1 && tail == [])
  }

  lemma {:induction false} StepExact(dec: Text, s: seq<byte>)
    requires s != []
    ensures match NameStep(dec, s)
      case Stop(found) => NameEnds(dec, s, found)
      case GoOn(rest) => |rest| < |s| && s[|s| - |rest|..] == rest && SteppedOver(s[..|s| - |rest|], rest == [])
  {
    if VarintOf(s).None? {
      NoMore(s);
    } else {
      var (key, i) := VarintOf(s).value;
      Spelled(s);
      var tag, t := s[..i], s[i..];
      assert tag <= s && s[|tag|..] == t;
      if key % 8 in {0, 2} {
        NumberedStep(dec, s, key, i);
      } else if key % 8 in {1, 5} {
        FixedStep(dec, s, key, i);
      } else {
        hide VarintOf, Spells;
        assert NameStep(dec, s) == Stop(Done(None));
        assert OtherType(tag, key, s);
      }
    }
  }

  lemma {:induction false} FixedStep(dec: Text, s: seq<byte>, key: nat, i: nat)
    requires VarintOf(s) == Some((key, i)) && Spells(s[..i], key) && key % 8 in {1, 5}
    ensures NameStep(dec, s).GoOn?
    ensures var rest := NameStep(dec, s).rest; |rest| < |s| && s[|s| - |rest|..] == rest && SteppedOver(s[..|s| - |rest|], rest == [])
  {
    hide VarintOf, Spells;
    var rest := NameStep(dec, s).rest;
    var b, tag := s[..|s| - |rest|], s[..i];
    assert FixedBehind(tag, key, b, rest == []);
  }

  lemma {:induction false} NumberedStep(dec: Text, s: seq<byte>, key: nat, i: nat)
    requires VarintOf(s) == Some((key, i)) && Spells(s[..i], key) && key % 8 in {0, 2}
    ensures match NameStep(dec, s)
      case Stop(found) => NameEnds(dec, s, found)
      case GoOn(rest) => |rest| < |s| && s[|s| - |rest|..] == rest && SteppedOver(s[..|s| - |rest|], rest == [])
  {
    hide *;
    if VarintOf(s[i..]).None? {
      EndlessHere(dec, s, key, i);
    } else {
      NumberedField(dec, s, key, i);
      OneFieldExact(s);
      var f, rest := OneField(s).value.0, OneField(s).value.1;
      if NotName(f) {
        SteppedField(s[..|s| - |rest|], f, rest == []);
      } else {
        NameHere(dec, s, f, rest);
      }
    }
  }

  lemma {:induction false} EndlessHere(dec: Text, s: seq<byte>, key: nat, i: nat)
    requires VarintOf(s) == Some((key, i)) && VarintOf(s[i..]).None? && Spells(s[..i], key) && key % 8 in {0, 2}
    ensures NameStep(dec, s) == Stop(Raises) && NameEnds(dec, s, Raises)
  {
    NoMore(s[i..]);
    hide VarintOf, Spells;
    assert s[..i] <= s && s[|s[..i]|..] == s[i..];
    assert EndlessBehind(s[..i], key, s);
  }

  lemma {:induction false} NumberedField(dec: Text, s: seq<byte>, key: nat, i: nat)
    requires VarintOf(s) == Some((key, i)) && VarintOf(s[i..]).Some? && key % 8 in {0, 2}
    ensures OneField(s).Some?
    ensures var (f, rest) := OneField(s).value;
      && (NotName(f) || f.Chunk?)
      && NameStep(dec, s) == if NotName(f) then GoOn(rest) else Stop(Done(Some(dec(f.payload))))
  {
    hide VarintOf;
  }

  lemma {:induction false} SteppedField(b: seq<byte>, f: Field, last: bool)
    requires FieldWritten(b, f, last) && NotName(f)
    ensures SteppedOver(b, last)
  {
    hide FieldWritten;
  }

  lemma {:induction false} NameHere(dec: Text, s: seq<byte>, f: Field, rest: seq<byte>)
    requires |rest| < |s| && s[|s| - |rest|..] == rest && FieldWritten(s[..|s| - |rest|], f, rest == []) && !NotName(f)
    ensures f.Chunk? && NameEnds(dec, s, Done(Some(dec(f.payload))))
  {
    hide FieldWritten;
    var b := s[..|s| - |rest|];
    assert b == s <==> rest == [];
    assert NameAt(b, f.payload, s);
  }

  lemma {:induction false} NameOfStep(dec: Text, s: seq<byte>)
    requires s != []
    ensures NameOf(dec, s) == match NameStep(dec, s) case Stop(found) => found case GoOn(rest) => NameOf(dec, rest)
  {
    hide NameStep;
  }

  /** The name found in any entry: of the first length-delimited field 1, everything before it being stepped over. */
  lemma {:induction false} NameExact(dec: Text, s: seq<byte>) returns (steps: seq<seq<byte>>, tail: seq<byte>)
    ensures s == Joins(steps) + tail && AllSteppedOver(steps, tail) && NameEnds(dec, tail, NameOf(dec, s))
    decreases |s|
  {
    steps, tail := [], s;
    NothingJoined(s);
    if s != [] {
      StepExact(dec, s);
      NameOfStep(dec, s);
      hide *;
      if NameStep(dec, s).GoOn? {
        var rest := NameStep(dec, s).rest;
        var first := s[..|s| - |rest|];
        steps, tail := NameExact(dec, rest);
        assert s == first + rest;
        OneStepMore(first, steps, tail);
        steps := [first] + steps;
      }
    } else {
      assert NameOf(dec, s) == Done(None);
    }
  }

  lemma {:induction false} NothingJoined(s: seq<byte>)
    ensures s == Joins([]) + s && AllSteppedOver([], s)
  {
  }

  lemma {:induction false} OneStepMore(first: seq<byte>, steps: seq<seq<byte>>, tail: seq<byte>)
    requires first != [] && AllSteppedOver(steps, tail) && SteppedOver(first, Joins(steps) + tail == [])
    ensures AllSteppedOver([first] + steps, tail) && Joins([first] + steps) + tail == first + (Joins(steps) + tail)
  {
    hide SteppedOver;
    var all := [first] + steps;
    assert all[1..] == steps;
    assert Joins(steps) + tail == [] <==> steps == [] && tail == [];
    forall i | 0 <= i < |all| ensures all[i] != [] && SteppedOver(all[i], i == |all| - 1 && tail == []) {
      if i > 0 {
        assert SteppedOver(steps[i - 1], i - 1 == |steps| - 1 && tail == []);
      }
    }
  }

  /* ---- the entries of a file ---- */

  /** How the cutting of a file into entries ends: with them all, at a field that is none, or at a number without end. */
  ghost predicate EntriesEnd(parts: seq<seq<byte>>, tail: seq<byte>, found: Outcome<seq<Entry>>) {
    match found
    case Done(es) => tail == [] && |es| == |parts| && forall i :: 0 <= i < |es| ==> EntryWritten(es[i], parts[i], i == |es| - 1)
    case NotGeodata => exists tag, key :: NotEntry(tag, key, tail)
    case Raises => tail != [] && (Unfinished(tail) || exists tag :: tag <= tail && Spells(tag, 10) && Unfinished(tail[|tag|..]))
    case _ => false
  }

  ghost predicate EntryWritten(e: Entry, part: seq<byte>, last: bool) {
    e.raw == part && FieldWritten(part, Chunk(1, e.payload), last)
  }

  ghost predicate NotEntry(tag: seq<byte>, key: nat, tail: seq<byte>) {
    tag <= tail && Spells(tag, key) && key != 10
  }

  ghost predicate AllEntries(parts: seq<seq<byte>>, tail: seq<byte>) {
    forall i :: 0 <= i < |parts| ==> parts[i] != [] && exists p :: FieldWritten(parts[i], Chunk(1, p), i == |parts| - 1 && tail == [])
  }

  lemma {:induction false} EntryIsField(s: seq<byte>)
    requires FirstEntry(s).Done?
    ensures OneField(s) == Some((Chunk(1, FirstEntry(s).value.payload), s[|FirstEntry(s).value.raw|..]))
  {
    hide VarintOf;
  }

  lemma {:induction false} EntryExact(s: seq<byte>)
    requires FirstEntry(s).Done?
    ensures var e := FirstEntry(s).value; var rest := s[|e.raw|..];
      s == e.raw + rest && 0 < |e.raw| && EntryWritten(e, e.raw, rest == [])
  {
    EntryIsField(s);
    OneFieldExact(s);
    hide OneField, VarintOf, FieldWritten;
    var e := FirstEntry(s).value;
    assert s[..|s| - |s[|e.raw|..]|] == e.raw;
  }

  lemma {:induction false} NoEntryExact(s: seq<byte>)
    requires s != [] && !FirstEntry(s).Done?
    ensures EntriesEnd([], s, Failed(FirstEntry(s)))
  {
    NoMore(s);
    if VarintOf(s).Some? {
      var (key, i) := VarintOf(s).value;
      Spelled(s);
      NoMore(s[i..]);
      hide VarintOf, Spells;
      var tag := s[..i];
      assert tag <= s && s[|tag|..] == s[i..];
      if FirstEntry(s).NotGeodata? {
        assert NotEntry(tag, key, s);
      } else {
        assert key == 10;
      }
    }
  }

  lemma {:induction false} EntriesStep(s: seq<byte>)
    requires s != []
    ensures !FirstEntry(s).Done? ==> Entries(s) == Failed(FirstEntry(s))
    ensures FirstEntry(s).Done? ==>
      var e := FirstEntry(s).value; Entries(s) == Before([e], Entries(s[|e.raw|..]))
  {
    hide FirstEntry;
  }

  lemma {:induction false} OneEntryMore(e: Entry, parts: seq<seq<byte>>, tail: seq<byte>, more: Outcome<seq<Entry>>)
    requires EntriesEnd(parts, tail, more) && AllEntries(parts, tail) && e.raw != []
    requires EntryWritten(e, e.raw, Joins(parts) + tail == [])
    ensures EntriesEnd([e.raw] + parts, tail, Before([e], more)) && AllEntries([e.raw] + parts, tail)
    ensures Joins([e.raw] + parts) + tail == e.raw + (Joins(parts) + tail)
  {
    hide FieldWritten, Spells, Unfinished;
    var all := [e.raw] + parts;
    assert all[1..] == parts;
    assert Joins(parts) + tail == [] <==> parts == [] && tail == [];
    forall i | 0 <= i < |all| ensures all[i] != [] && exists p :: FieldWritten(all[i], Chunk(1, p), i == |all| - 1 && tail == []) {
      if i > 0 {
        assert parts[i - 1] != [] && exists p :: FieldWritten(parts[i - 1], Chunk(1, p), i - 1 == |parts| - 1 && tail == []);
      } else {
        assert FieldWritten(e.raw, Chunk(1, e.payload), parts == [] && tail == []);
      }
    }
    if more.Done? {
      var es := [e] + more.value;
      forall i | 0 <= i < |es| ensures EntryWritten(es[i], all[i], i == |es| - 1) {
        if i > 0 {
          assert EntryWritten(more.value[i - 1], parts[i - 1], i - 1 == |more.value| - 1);
        }
      }
    }
  }

  lemma {:induction false} NoEntries()
    ensures Entries([]) == Done([]) && EntriesEnd([], [], Done([]))
  {
  }

  /** Any file is cut into entries, each the bytes of a length-delimited field 1, up to its end or to what is none. */
  lemma {:induction false} EntriesExact(s: seq<byte>) returns (parts: seq<seq<byte>>, tail: seq<byte>)
    ensures s == Joins(parts) + tail && AllEntries(parts, tail) && EntriesEnd(parts, tail, Entries(s))
    decreases |s|
  {
    parts, tail := [], s;
    NothingJoined(s);
    if s == [] {
      NoEntries();
    } else {
      EntriesStep(s);
      hide EntriesEnd, Entries, FirstEntry, EntryWritten, Before, Failed, Joins;
      assert AllEntries(parts, tail);
      hide AllEntries;
      if FirstEntry(s).Done? {
        var e := FirstEntry(s).value;
        EntryExact(s);
        parts, tail := EntriesExact(s[|e.raw|..]);
        OneEntryMore(e, parts, tail, Entries(s[|e.raw|..]));
        parts := [e.raw] + parts;
      } else {
        NoEntryExact(s);
      }
    }
  }
}

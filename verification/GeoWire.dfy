/** The protobuf wire format as the two geodata scripts read it, Python's silent slice truncation included. */
module GeoWire {
  import opened Bytes

  function Pow2(n: nat): (p: nat)
    ensures p >= 1
  {
    if n == 0 then 1 else 2 * Pow2(n - 1)
  }

  lemma {:induction false} Pow2Seven(n: nat)
    ensures Pow2(n + 7) == 128 * Pow2(n)
  {
    assert Pow2(n + 7) == 2 * Pow2(n + 6) == 4 * Pow2(n + 5) == 8 * Pow2(n + 4);
    assert Pow2(n + 4) == 2 * Pow2(n + 3) == 4 * Pow2(n + 2) == 8 * Pow2(n + 1);
  }

  /** Little-endian base-128 number at the front of `s`, with its length; None where the script indexes past the end. */
  function VarintOf(s: seq<byte>): (r: Option<(nat, nat)>)
    ensures r.Some? ==> 1 <= r.value.1 <= |s|
  {
    if s == [] then None
    else if s[0] < 128 then Some((s[0], 1))
    else
      match VarintOf(s[1..])
      case None => None
      case Some((v, n)) => Some((s[0] - 128 + 128 * v, n + 1))
  }

  /** The loop of both scripts. `result` stays below 2^shift, so its `|=` only ever adds. */
  method ReadVarint(buf: seq<byte>, at: nat) returns (r: Option<(nat, nat)>)
    requires at <= |buf|
    ensures r.Some? <==> VarintOf(buf[at..]).Some?
    ensures r.Some? ==> var (v, n) := VarintOf(buf[at..]).value;
      r.value == (v, at + n) && buf[r.value.1..] == buf[at..][n..]
  {
    var i, result, shift := at, 0, 0;
    assert Pow2(0) == 1;
    hide VarintOf, Pow2;
    while true
      invariant at <= i <= |buf| && result < Pow2(shift)
      invariant match VarintOf(buf[at..])
        case None => VarintOf(buf[i..]).None?
        case Some((v, n)) => VarintOf(buf[i..]).Some? && v == result + Pow2(shift) * VarintOf(buf[i..]).value.0
                             && at + n == i + VarintOf(buf[i..]).value.1
      decreases |buf| - i
    {
      VarintUnfold(buf[i..]);
      if i == |buf| {
        return None;
      }
      var b := buf[i];
      assert buf[i..][1..] == buf[i + 1..];
      i := i + 1;
      ghost var scale := Pow2(shift);
      Shifted(b % 128, scale);
      result := result + (b % 128) * Pow2(shift);
      if b < 128 {
        return Some((result, i));
      }
      Pow2Seven(shift);
      shift := shift + 7;
      if VarintOf(buf[i..]).Some? {
        Distribute(scale, b - 128, VarintOf(buf[i..]).value.0);
      }
    }
  }

  lemma {:induction false} VarintUnfold(s: seq<byte>)
    ensures VarintOf(s) ==
      if s == [] then None
      else if s[0] < 128 then Some((s[0], 1))
      else if VarintOf(s[1..]).None? then None
      else Some((s[0] - 128 + 128 * VarintOf(s[1..]).value.0, VarintOf(s[1..]).value.1 + 1))
  {
  }

  lemma {:induction false} Shifted(digit: nat, scale: nat)
    requires digit < 128
    ensures digit * scale + scale <= 128 * scale && digit * scale == scale * digit
  {
    assert digit * scale + scale == (digit + 1) * scale;
  }

  lemma {:induction false} Distribute(scale: nat, low: nat, high: nat)
    ensures scale * (low + 128 * high) == low * scale + (128 * scale) * high
  {
  }

  lemma {:induction false} VarintLocal(s: seq<byte>, t: seq<byte>)
    requires VarintOf(s).Some?
    ensures VarintOf(s + t) == VarintOf(s)
  {
    if s[0] >= 128 {
      VarintLocal(s[1..], t);
      assert (s + t)[1..] == s[1..] + t;
    }
  }

  /** A varint lies within its own length. */
  lemma {:induction false} VarintOwnBytes(s: seq<byte>, k: nat)
    requires VarintOf(s).Some? && VarintOf(s).value.1 <= k <= |s|
    ensures VarintOf(s[..k]) == VarintOf(s)
  {
    if s[0] >= 128 {
      VarintOwnBytes(s[1..], k - 1);
      assert s[..k][1..] == s[1..][..k - 1];
    }
  }

  /** Python's `s[i:j]`: indices past the end are clamped. */
  function Slice<T>(s: seq<T>, i: nat, j: nat): seq<T> {
    if i >= |s| || j <= i then [] else if j <= |s| then s[i..j] else s[i..]
  }

  /** The first `n` elements, or all of them when there are fewer; and what is left. */
  function Head<T>(s: seq<T>, n: nat): seq<T> {
    s[..Min(n, |s|)]
  }

  function Rest<T>(s: seq<T>, n: nat): seq<T> {
    s[Min(n, |s|)..]
  }

  lemma {:induction false} SliceFrom<T>(s: seq<T>, at: nat, n: nat)
    requires at <= |s|
    ensures Slice(s, at, at + n) == Head(s[at..], n)
    ensures Slice(s, at + n, |s|) == Rest(s[at..], n)
  {
  }

  lemma {:induction false} SliceAll<T>(s: seq<T>, at: nat)
    requires at <= |s|
    ensures Slice(s, at, |s|) == s[at..]
  {
  }

  /** One field of a message: a length-delimited payload or a number. */
  datatype Field = Chunk(num: nat, payload: seq<byte>) | Number(num: nat, value: nat)

  /** The first field of `s` and the bytes after it; None where the script raises. */
  function OneField(s: seq<byte>): (r: Option<(Field, seq<byte>)>)
    ensures r.Some? ==> |r.value.1| < |s|
  {
    match VarintOf(s)
    case None => None
    case Some((key, i)) =>
      match VarintOf(s[i..])
      case None => None
      case Some((v, n)) =>
        var t := s[i..][n..];
        if key % 8 == 2 then Some((Chunk(key / 8, Head(t, v)), Rest(t, v)))
        else if key % 8 == 0 then Some((Number(key / 8, v), t))
        else None
  }

  /** All fields of a flat message, or None when reading them raises. */
  function FieldsOf(s: seq<byte>): Option<seq<Field>>
    decreases |s|
  {
    if s == [] then Some([])
    else
      match OneField(s)
      case None => None
      case Some((f, rest)) =>
        match FieldsOf(rest)
        case None => None
        case Some(more) => Some([f] + more)
  }

  /** One turn of the `fields` loop: the field at `at` and the index after it, which may lie past the end. */
  method ReadField(buf: seq<byte>, at: nat) returns (r: Option<(Field, nat)>)
    requires at <= |buf|
    ensures r.Some? <==> OneField(buf[at..]).Some?
    ensures r.Some? ==> r.value.1 > at && (r.value.0, Slice(buf, r.value.1, |buf|)) == OneField(buf[at..]).value
  {
    hide VarintOf;
    var k := ReadVarint(buf, at);
    if k.None? {
      return None;
    }
    var (key, i) := k.value;
    if key % 8 == 2 {
      var l := ReadVarint(buf, i);
      if l.None? {
        return None;
      }
      var (len, p) := l.value;
      SliceFrom(buf, p, len);
      return Some((Chunk(key / 8, Slice(buf, p, p + len)), p + len));
    } else if key % 8 == 0 {
      var v := ReadVarint(buf, i);
      if v.None? {
        return None;
      }
      SliceFrom(buf, v.value.1, 0);
      return Some((Number(key / 8, v.value.0), v.value.1));
    } else {
      return None;
    }
  }

  /** The `fields` generator run to its end. */
  method Fields(buf: seq<byte>) returns (r: Option<seq<Field>>)
    ensures r == FieldsOf(buf)
  {
    hide OneField;
    var i, out := 0, [];
    assert Slice(buf, 0, |buf|) == buf;
    assert FieldsOf(buf).Some? ==> [] + FieldsOf(buf).value == FieldsOf(buf).value;
    while i < |buf|
      invariant FieldsOf(buf).Some? <==> FieldsOf(Slice(buf, i, |buf|)).Some?
      invariant FieldsOf(buf).Some? ==> FieldsOf(buf).value == out + FieldsOf(Slice(buf, i, |buf|)).value
      decreases |buf| - i
    {
      var f := ReadField(buf, i);
      if f.None? {
        return None;
      }
      ghost var rest := FieldsOf(Slice(buf, f.value.1, |buf|));
      if rest.Some? {
        assert out + ([f.value.0] + rest.value) == (out + [f.value.0]) + rest.value;
      }
      out, i := out + [f.value.0], f.value.1;
    }
    assert out + [] == out;
    return Some(out);
  }
}

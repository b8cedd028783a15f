/** Bytes, big-endian 16-bit fields, and the small helpers every part shares. */
module Bytes {
  type byte = b: int | 0 <= b < 256
  type u16 = n: int | 0 <= n < 0x1_0000

  datatype Option<+T> = None | Some(value: T)

  function Min(a: nat, b: nat): nat {
    if a <= b then a else b
  }

  /** The two big-endian bytes of a 16-bit value. */
  function Be16(n: u16): (s: seq<byte>)
    ensures |s| == 2
  {
    [n / 256, n % 256]
  }

  /** The 16-bit value at offset `i`. */
  function U16At(s: seq<byte>, i: nat): u16
    requires i + 1 < |s|
  {
    var hi: int, lo: int := s[i], s[i + 1];
    256 * hi + lo
  }

  function Concat<T>(parts: seq<seq<T>>): seq<T> {
    if parts == [] then [] else parts[0] + Concat(parts[1..])
  }

  lemma {:induction false} ConcatSnoc<T>(parts: seq<seq<T>>, last: seq<T>)
    ensures Concat(parts + [last]) == Concat(parts) + last
  {
    if parts == [] {
      assert parts + [last] == [last];
      assert [last][1..] == [];
    } else {
      assert (parts + [last])[1..] == parts[1..] + [last];
      ConcatSnoc(parts[1..], last);
    }
  }

  lemma {:induction false} ConcatAppend<T>(a: seq<seq<T>>, b: seq<seq<T>>)
    ensures Concat(a + b) == Concat(a) + Concat(b)
  {
    if a == [] {
      assert a + b == b;
    } else {
      assert (a + b)[1..] == a[1..] + b;
      ConcatAppend(a[1..], b);
    }
  }

  /** Two adjacent parts between what is before and after them. */
  lemma {:induction false} Around<T>(before: seq<T>, x: seq<T>, y: seq<T>, after: seq<T>)
    ensures before + (x + y) + after == before + x + (y + after)
    ensures before + (x + y) + after == (before + x) + y + after
  {
  }

  /** One byte string split in two ways: the shorter first part is a prefix of the longer. */
  lemma {:induction false} TwoSplits<T>(a: seq<T>, b: seq<T>, c: seq<T>, d: seq<T>)
    requires a + b == c + d
    ensures |a| <= |c| ==> c == a + c[|a|..] && c[|a|..] + d == b
    ensures |a| >= |c| ==> a == c + a[|c|..] && a[|c|..] + b == d
  {
    if |a| <= |c| {
      assert a == (a + b)[..|a|] == (c + d)[..|a|] == c[..|a|];
      assert b == (a + b)[|a|..] == (c + d)[|a|..] == c[|a|..] + d;
    }
    if |a| >= |c| {
      assert c == (c + d)[..|c|] == (a + b)[..|c|] == a[..|c|];
      assert d == (c + d)[|c|..] == (a + b)[|c|..] == a[|c|..] + b;
    }
  }
}

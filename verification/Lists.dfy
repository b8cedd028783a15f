/** Lists without repetition. */
module Lists {
  ghost predicate Distinct<T>(ls: seq<T>) {
    forall i, j :: 0 <= i < j < |ls| ==> ls[i] != ls[j]
  }

  ghost predicate Apart<T>(a: seq<T>, b: seq<T>) {
    forall l :: l in a ==> l !in b
  }

  lemma {:induction false} DistinctJoin<T>(a: seq<T>, b: seq<T>)
    requires Distinct(a) && Distinct(b) && Apart(a, b)
    ensures Distinct(a + b)
  {
    forall i, j | 0 <= i < j < |a + b| ensures (a + b)[i] != (a + b)[j] {
      if i < |a| <= j {
        assert a[i] in a && b[j - |a|] in b;
      }
    }
  }

  lemma {:induction false} DistinctParts<T>(a: seq<T>, b: seq<T>)
    requires Distinct(a + b)
    ensures Distinct(a) && Distinct(b) && Apart(a, b)
  {
    assert forall i :: 0 <= i < |a| ==> (a + b)[i] == a[i];
    assert forall i :: 0 <= i < |b| ==> (a + b)[|a| + i] == b[i];
  }

  function Where<T>(ls: seq<T>, keep: T -> bool): seq<T> {
    if ls == [] then []
    else
      var front, last := Where(ls[..|ls| - 1], keep), ls[|ls| - 1];
      if keep(last) then front + [last] else front
  }

  function Not<T>(p: T -> bool): T -> bool {
    (l: T) => !p(l)
  }

  lemma {:induction false} WhereSpec<T>(ls: seq<T>, keep: T -> bool)
    ensures forall l :: l in Where(ls, keep) <==> l in ls && keep(l)
    ensures |Where(ls, keep)| <= |ls|
    ensures Distinct(ls) ==> Distinct(Where(ls, keep))
  {
    if ls != [] {
      var front := ls[..|ls| - 1];
      WhereSpec(front, keep);
      assert ls == front + [ls[|ls| - 1]];
    }
  }

  lemma {:induction false} WhereHalves<T>(ls: seq<T>, keep: T -> bool)
    ensures |Where(ls, keep)| + |Where(ls, Not(keep))| == |ls|
  {
    if ls != [] {
      WhereHalves(ls[..|ls| - 1], keep);
    }
  }

  /** Elements not seen before, each once, in order. */
  function Fresh<T(==)>(ls: seq<T>, seen: set<T>): seq<T> {
    if ls == [] then []
    else
      var front, last := Fresh(ls[..|ls| - 1], seen), ls[|ls| - 1];
      if last in seen || last in front then front else front + [last]
  }

  lemma {:induction false} FreshSpec<T>(ls: seq<T>, seen: set<T>)
    ensures Distinct(Fresh(ls, seen))
    ensures forall l :: l in Fresh(ls, seen) <==> l in ls && l !in seen
  {
    if ls != [] {
      FreshSpec(ls[..|ls| - 1], seen);
      assert ls == ls[..|ls| - 1] + [ls[|ls| - 1]];
    }
  }

  lemma {:induction false} FreshAppend<T>(a: seq<T>, b: seq<T>, seen: set<T>)
    ensures Fresh(a + b, seen) == Fresh(a, seen) + Fresh(b, seen + set l | l in a)
  {
    if b == [] {
      assert a + b == a;
    } else {
      var front, last := b[..|b| - 1], b[|b| - 1];
      FreshAppend(a, front, seen);
      FreshSpec(a, seen);
      assert (a + b)[..|a + b| - 1] == a + front;
    }
  }

  lemma {:induction false} FreshAll<T>(ls: seq<T>, seen: set<T>)
    requires Distinct(ls) && forall l :: l in ls ==> l !in seen
    ensures Fresh(ls, seen) == ls
  {
    if ls != [] {
      var front, last := ls[..|ls| - 1], ls[|ls| - 1];
      assert ls == front + [last];
      DistinctParts(front, [last]);
      FreshAll(front, seen);
    }
  }

  lemma {:induction false} FreshPrefix<T>(a: seq<T>, b: seq<T>)
    ensures var k, all := |Fresh(a, {})|, Fresh(a + b, {});
      k <= |all| && all[..k] == Fresh(a, {}) && Distinct(all)
      && forall x :: x in all[k..] <==> x in b && x !in a
  {
    FreshAppend(a, b, {});
    var seen := set l | l in a;
    assert {} + seen == seen;
    FreshSpec(b, seen);
    FreshSpec(a + b, {});
  }

  /** A list offered in three parts, seen through where each of them adds to the result. */
  lemma {:induction false} ThreeParts<T>(a: seq<T>, b: seq<T>, c: seq<T>, x: T)
    ensures var k, m, all := |Fresh(a, {})|, |Fresh(a + b, {})|, Fresh(a + b + c, {});
      && Distinct(all) && k <= m <= |all|
      && (x in all[..k] <==> x in a)
      && (x in all[k..m] <==> x in b && x !in a)
      && (x in all[m..] <==> x in c && x !in a && x !in b)
  {
    FreshPrefix(a, b);
    FreshPrefix(a + b, c);
    FreshSpec(a, {});
    hide Fresh;
    var k, m, all := |Fresh(a, {})|, |Fresh(a + b, {})|, Fresh(a + b + c, {});
    assert all[..k] == all[..m][..k] && all[k..m] == all[..m][k..];
    assert x in a + b <==> x in a || x in b;
  }

  lemma {:induction false} HeadSpec<T>(ls: seq<T>, n: nat)
    requires Distinct(ls) && n <= |ls|
    ensures Distinct(ls[..n]) && forall l :: l in ls[..n] ==> l in ls
  {
  }

  lemma {:induction false} SameBag<T>(a: seq<T>, b: seq<T>)
    requires multiset(a) == multiset(b) && Distinct(b)
    ensures Distinct(a) && |a| == |b| && forall l :: l in a <==> l in b
  {
    assert |multiset(a)| == |multiset(b)|;
    forall l ensures l in a <==> l in b {
      assert l in multiset(a) <==> l in multiset(b);
    }
    forall i, j | 0 <= i < j < |a| ensures a[i] != a[j] {
      if a[i] == a[j] {
        assert a == a[..i] + [a[i]] + a[i + 1..j] + [a[j]] + a[j + 1..];
        assert multiset(a)[a[i]] >= 2;
        OnceOnly(b, a[i]);
      }
    }
  }

  lemma {:induction false} OnceOnly<T>(ls: seq<T>, l: T)
    requires Distinct(ls)
    ensures multiset(ls)[l] <= 1
  {
    if ls != [] {
      var front := ls[..|ls| - 1];
      OnceOnly(front, l);
      assert ls == front + [ls[|ls| - 1]];
      assert l == ls[|ls| - 1] ==> l !in front;
    }
  }

  /* ---- parts of a list, by place ---- */

  ghost predicate Rising(at: seq<nat>) {
    forall i, j :: 0 <= i < j < |at| ==> at[i] < at[j]
  }

  ghost predicate ReadsAt<T>(out: seq<T>, ls: seq<T>, at: seq<nat>) {
    |out| == |at| && forall i :: 0 <= i < |at| ==> at[i] < |ls| && out[i] == ls[at[i]]
  }

  ghost predicate Places<T>(out: seq<T>, ls: seq<T>, at: seq<nat>, chosen: nat -> bool) {
    Rising(at) && ReadsAt(out, ls, at) && forall k :: 0 <= k < |ls| ==> (k in at <==> chosen(k))
  }

  /** What stands at the chosen places of a list, each once and in order, and nothing else. */
  ghost predicate PartOf<T>(out: seq<T>, ls: seq<T>, chosen: nat -> bool) {
    exists at :: Places(out, ls, at, chosen)
  }

  lemma {:induction false} PartNone<T>(ls: seq<T>, chosen: nat -> bool)
    requires ls == []
    ensures PartOf([], ls, chosen)
  {
    var out: seq<T>, at: seq<nat> := [], [];
    assert Places(out, ls, at, chosen);
  }

  lemma {:induction false} PlacesSnoc<T>(out: seq<T>, ls: seq<T>, at: seq<nat>, before: nat -> bool, chosen: nat -> bool, last: nat)
    requires |ls| == last + 1 && Places(out, ls[..last], at, before)
    requires forall k: nat :: k < last ==> before(k) == chosen(k)
    ensures Places(if chosen(last) then out + [ls[last]] else out, ls, if chosen(last) then at + [last] else at, chosen)
  {
    forall k | k in at ensures k < last {
      var i :| 0 <= i < |at| && at[i] == k;
    }
    var all := if chosen(last) then at + [last] else at;
    forall k: nat | k < |ls| ensures k in all <==> chosen(k) {
      assert k in at + [last] <==> k in at || k == last;
      if k < last {
        assert k in at <==> before(k);
      }
    }
  }

  lemma {:induction false} PartSnoc<T>(out: seq<T>, ls: seq<T>, before: nat -> bool, chosen: nat -> bool, last: nat)
    requires |ls| == last + 1 && PartOf(out, ls[..last], before)
    requires forall k: nat :: k < last ==> before(k) == chosen(k)
    ensures PartOf(if chosen(last) then out + [ls[last]] else out, ls, chosen)
  {
    var at :| Places(out, ls[..last], at, before);
    hide Places;
    PlacesSnoc(out, ls, at, before, chosen, last);
  }

  lemma {:induction false} PartSame<T>(out: seq<T>, ls: seq<T>, chosen: nat -> bool, same: nat -> bool)
    requires PartOf(out, ls, chosen) && forall k: nat :: k < |ls| ==> chosen(k) == same(k)
    ensures PartOf(out, ls, same)
  {
    var at :| Places(out, ls, at, chosen);
    assert Places(out, ls, at, same);
  }

  function KeptAt<T>(ls: seq<T>, keep: T -> bool): nat -> bool {
    (k: nat) => k < |ls| && keep(ls[k])
  }

  lemma {:induction false} WherePart<T>(ls: seq<T>, keep: T -> bool)
    ensures PartOf(Where(ls, keep), ls, KeptAt(ls, keep))
  {
    hide PartOf;
    var chosen := KeptAt(ls, keep);
    if ls == [] {
      PartNone(ls, chosen);
    } else {
      var front, last: nat := ls[..|ls| - 1], |ls| - 1;
      WherePart(front, keep);
      hide Where;
      WhereLast(ls, keep);
      PartSnoc(Where(front, keep), ls, KeptAt(front, keep), chosen, last);
    }
  }

  lemma {:induction false} WhereLast<T>(ls: seq<T>, keep: T -> bool)
    requires ls != []
    ensures Where(ls, keep) == var front := Where(ls[..|ls| - 1], keep); if keep(ls[|ls| - 1]) then front + [ls[|ls| - 1]] else front
  {
  }

  /** An element is new at a place when it is neither excluded nor in an earlier one. */
  predicate NewAt<T(==)>(ls: seq<T>, seen: set<T>, k: nat) {
    k < |ls| && ls[k] !in seen && ls[k] !in ls[..k]
  }

  lemma {:induction false} NewInFront<T>(ls: seq<T>, seen: set<T>, last: nat, k: nat)
    requires k < last < |ls|
    ensures NewAt(ls[..last], seen, k) == NewAt(ls, seen, k)
  {
    assert ls[..last][..k] == ls[..k];
  }

  /** Of every element not excluded its first place. */
  lemma {:induction false} FreshPart<T>(ls: seq<T>, seen: set<T>)
    ensures PartOf(Fresh(ls, seen), ls, (k: nat) => NewAt(ls, seen, k))
  {
    hide PartOf;
    var chosen := (k: nat) => NewAt(ls, seen, k);
    if ls == [] {
      PartNone(ls, chosen);
    } else {
      var front, last: nat := ls[..|ls| - 1], |ls| - 1;
      FreshPart(front, seen);
      FreshLast(ls, seen);
      hide Fresh;
      var before := (k: nat) => NewAt(front, seen, k);
      forall k: nat | k < last ensures before(k) == chosen(k) {
        NewInFront(ls, seen, last, k);
      }
      PartSnoc(Fresh(front, seen), ls, before, chosen, last);
    }
  }

  lemma {:induction false} FreshLast<T>(ls: seq<T>, seen: set<T>)
    requires ls != []
    ensures var front, last: nat := ls[..|ls| - 1], |ls| - 1;
      Fresh(ls, seen) == if NewAt(ls, seen, last) then Fresh(front, seen) + [ls[last]] else Fresh(front, seen)
  {
    FreshSpec(ls[..|ls| - 1], seen);
  }
}

/** What a geodata file means to the decoder, message by message: the last value of a single field counts, every value of a
    repeated one. */
module GeoMeaning {
  import opened Bytes
  import opened GeoWire
  import opened GeoTrim

  /** The length-delimited fields with a number, in order. */
  function Payloads(fs: seq<Field>, num: nat): seq<seq<byte>> {
    if fs == [] then []
    else (if fs[0].Chunk? && fs[0].num == num then [fs[0].payload] else []) + Payloads(fs[1..], num)
  }

  /** The values of the numeric fields with a number, in order. */
  function Values(fs: seq<Field>, num: nat): seq<nat> {
    if fs == [] then []
    else (if fs[0].Number? && fs[0].num == num then [fs[0].value] else []) + Values(fs[1..], num)
  }

  function LastOr<T>(ls: seq<T>, otherwise: T): T {
    if ls == [] then otherwise else ls[|ls| - 1]
  }

  lemma {:induction false} LastFront<T>(x: T, ls: seq<T>, otherwise: T)
    ensures LastOr([x] + ls, otherwise) == LastOr(ls, x)
  {
  }

  function Texts(dec: Text, ps: seq<seq<byte>>): seq<string> {
    if ps == [] then [] else [dec(ps[0])] + Texts(dec, ps[1..])
  }

  /* ---- a domain ---- */

  lemma {:induction false} DomainExact(dec: Text, fs: seq<Field>, d: Domain)
    ensures DomainFrom(dec, fs, d) == Domain(LastOr(Values(fs, 1), d.kind), LastOr(Texts(dec, Payloads(fs, 2)), d.value))
  {
    if fs != [] {
      var f, more := fs[0], fs[1..];
      match f
      case Number(1, v) =>
        DomainExact(dec, more, Domain(v, d.value));
        LastFront(v, Values(more, 1), d.kind);
        assert Payloads(fs, 2) == Payloads(more, 2);
      case Chunk(2, p) =>
        DomainExact(dec, more, Domain(d.kind, dec(p)));
        var ps := Payloads(more, 2);
        assert Payloads(fs, 2) == [p] + ps && ([p] + ps)[1..] == ps;
        LastFront(dec(p), Texts(dec, ps), d.value);
        assert Values(fs, 1) == Values(more, 1);
      case _ =>
        DomainExact(dec, more, d);
        assert Payloads(fs, 2) == Payloads(more, 2) && Values(fs, 1) == Values(more, 1);
    }
  }

  /** Bytes that stand for a domain: its last field 1 is the kind, 0 without one, and its last field 2 the text. */
  ghost predicate Stands(dec: Text, p: seq<byte>, d: Domain) {
    && FieldsOf(p).Some?
    && d == Domain(LastOr(Values(FieldsOf(p).value, 1), 0), LastOr(Texts(dec, Payloads(FieldsOf(p).value, 2)), ""))
  }

  /* ---- a category ---- */

  ghost predicate AllRead(ps: seq<seq<byte>>) {
    forall i :: 0 <= i < |ps| ==> FieldsOf(ps[i]).Some?
  }

  ghost predicate AllStand(dec: Text, ps: seq<seq<byte>>, ds: seq<Domain>) {
    |ds| == |ps| && forall i :: 0 <= i < |ps| ==> Stands(dec, ps[i], ds[i])
  }

  ghost predicate CategoryIs(dec: Text, fs: seq<Field>, c: Category) {
    && c.name == (if Payloads(fs, 1) == [] then None else Some(LastOr(Texts(dec, Payloads(fs, 1)), "")))
    && AllStand(dec, Payloads(fs, 2), c.domains)
  }

  lemma {:induction false} TextsEmpty(dec: Text, ps: seq<seq<byte>>)
    ensures |Texts(dec, ps)| == |ps|
  {
    if ps != [] {
      TextsEmpty(dec, ps[1..]);
    }
  }

  /** From a category begun, by the fields that are left. */
  lemma {:induction false} CategoryFromExact(dec: Text, fs: seq<Field>, c: Category)
    ensures CategoryFrom(dec, fs, c).Some? <==> AllRead(Payloads(fs, 2))
    ensures CategoryFrom(dec, fs, c).Some? ==>
      var r := CategoryFrom(dec, fs, c).value;
      && r.name == (if Payloads(fs, 1) == [] then c.name else Some(LastOr(Texts(dec, Payloads(fs, 1)), "")))
      && c.domains <= r.domains && AllStand(dec, Payloads(fs, 2), r.domains[|c.domains|..])
  {
    if fs != [] {
      var f, more := fs[0], fs[1..];
      hide FieldsOf;
      match f
      case Chunk(1, p) =>
        CategoryFromExact(dec, more, Category(Some(dec(p)), c.domains));
        NameFront(dec, p, Payloads(more, 1));
        assert Payloads(fs, 1) == [p] + Payloads(more, 1) && Payloads(fs, 2) == Payloads(more, 2);
      case Chunk(2, p) =>
        assert Payloads(fs, 2) == [p] + Payloads(more, 2) && Payloads(fs, 1) == Payloads(more, 1);
        ReadFront(p, Payloads(more, 2));
        if FieldsOf(p).Some? {
          var d := DomainFrom(dec, FieldsOf(p).value, Domain(0, ""));
          DomainExact(dec, FieldsOf(p).value, Domain(0, ""));
          var next := Category(c.name, c.domains + [d]);
          CategoryFromExact(dec, more, next);
          if CategoryFrom(dec, more, next).Some? {
            StandFront(dec, p, d, c.domains, Payloads(more, 2), CategoryFrom(dec, more, next).value.domains);
          }
        }
      case _ =>
        CategoryFromExact(dec, more, c);
        assert Payloads(fs, 1) == Payloads(more, 1) && Payloads(fs, 2) == Payloads(more, 2);
    }
  }

  lemma {:induction false} NameFront(dec: Text, p: seq<byte>, ps: seq<seq<byte>>)
    ensures LastOr(Texts(dec, [p] + ps), "") == if ps == [] then dec(p) else LastOr(Texts(dec, ps), "")
  {
    assert ([p] + ps)[1..] == ps;
    TextsEmpty(dec, ps);
    LastFront(dec(p), Texts(dec, ps), "");
  }

  lemma {:induction false} ReadFront(p: seq<byte>, ps: seq<seq<byte>>)
    ensures AllRead([p] + ps) <==> FieldsOf(p).Some? && AllRead(ps)
  {
    hide FieldsOf;
    var all := [p] + ps;
    if AllRead(all) {
      assert all[0] == p;
      forall i | 0 <= i < |ps| ensures FieldsOf(ps[i]).Some? {
        assert all[i + 1] == ps[i];
      }
    }
  }

  lemma {:induction false} StandFront(dec: Text, p: seq<byte>, d: Domain, before: seq<Domain>, ps: seq<seq<byte>>, ds: seq<Domain>)
    requires Stands(dec, p, d) && before + [d] <= ds && AllStand(dec, ps, ds[|before| + 1..])
    ensures before <= ds && AllStand(dec, [p] + ps, ds[|before|..])
  {
    hide Stands;
    var all, es := [p] + ps, ds[|before|..];
    assert es[0] == d && es[1..] == ds[|before| + 1..];
    forall i | 0 <= i < |all| ensures Stands(dec, all[i], es[i]) {
      if i > 0 {
        assert Stands(dec, ps[i - 1], es[1..][i - 1]);
      }
    }
  }

  /** A category is read if and only if its message and all its domains are, and then its last field 1 is the name and its
      fields 2 are the domains, in order. */
  lemma {:induction false} CategoryExact(dec: Text, payload: seq<byte>)
    ensures CategoryOf(dec, payload).Some? <==> FieldsOf(payload).Some? && AllRead(Payloads(FieldsOf(payload).value, 2))
    ensures CategoryOf(dec, payload).Some? ==> CategoryIs(dec, FieldsOf(payload).value, CategoryOf(dec, payload).value)
  {
    if FieldsOf(payload).Some? {
      var fs := FieldsOf(payload).value;
      CategoryFromExact(dec, fs, Category(None, []));
      hide AllStand, AllRead;
      if CategoryFrom(dec, fs, Category(None, [])).Some? {
        var ds := CategoryFrom(dec, fs, Category(None, [])).value.domains;
        assert ds[0..] == ds;
      }
    }
  }

  /* ---- a file ---- */

  /** The categories of a file, all of them read. */
  ghost predicate Categories(dec: Text, ps: seq<seq<byte>>, cs: seq<Category>) {
    |cs| == |ps| && forall i :: 0 <= i < |ps| ==> CategoryOf(dec, ps[i]) == Some(cs[i])
  }

  predicate Named(cs: seq<Category>, name: string) {
    name != "" && exists i :: 0 <= i < |cs| && cs[i].name == Some(name)
  }

  predicate LastNamed(cs: seq<Category>, name: string, i: nat) {
    i < |cs| && cs[i].name == Some(name) && forall j :: i < j < |cs| ==> cs[j].name != Some(name)
  }

  /** The last of some categories with this name, if there is one, leaves its domains; otherwise there is what was there before. */
  ghost predicate Leaves(cs: seq<Category>, name: string, before: Catalog, after: Catalog) {
    if Named(cs, name) then exists i: nat :: LastNamed(cs, name, i) && name in after && after[name] == cs[i].domains
    else (name in after <==> name in before) && (name in before ==> after[name] == before[name])
  }

  lemma {:induction false} NamedFront(c: Category, cs: seq<Category>, name: string)
    ensures Named([c] + cs, name) <==> Named(cs, name) || (name != "" && c.name == Some(name))
  {
    var all := [c] + cs;
    assert all[0] == c;
    if Named(cs, name) {
      var i :| 0 <= i < |cs| && cs[i].name == Some(name);
      assert all[i + 1] == cs[i];
    }
    if Named(all, name) {
      var i :| 0 <= i < |all| && all[i].name == Some(name);
      assert i > 0 ==> cs[i - 1] == all[i];
    }
  }

  lemma {:induction false} LastNamedFront(c: Category, cs: seq<Category>, name: string, i: nat)
    requires LastNamed(cs, name, i)
    ensures LastNamed([c] + cs, name, i + 1)
  {
    var all := [c] + cs;
    forall j | i + 1 < j < |all| ensures all[j].name != Some(name) {
      assert all[j] == cs[j - 1];
    }
  }

  lemma {:induction false} FirstIsLast(c: Category, cs: seq<Category>, name: string)
    requires name != "" && c.name == Some(name) && !Named(cs, name)
    ensures LastNamed([c] + cs, name, 0)
  {
    var all := [c] + cs;
    forall j | 0 < j < |all| ensures all[j].name != Some(name) {
      assert all[j] == cs[j - 1];
    }
  }

  lemma {:induction false} LeavesFront(c: Category, cs: seq<Category>, name: string, before: Catalog, after: Catalog)
    requires Leaves(cs, name, Stored(before, c), after)
    ensures Leaves([c] + cs, name, before, after)
  {
    NamedFront(c, cs, name);
    if Named(cs, name) {
      hide Named, Stored;
      var i: nat :| LastNamed(cs, name, i) && name in after && after[name] == cs[i].domains;
      LastNamedFront(c, cs, name, i);
      hide LastNamed;
      assert ([c] + cs)[i + 1] == cs[i];
    } else if name != "" && c.name == Some(name) {
      FirstIsLast(c, cs, name);
      hide Named, LastNamed;
      assert ([c] + cs)[0] == c;
    }
  }

  lemma {:induction false} CategoriesFront(dec: Text, p: seq<byte>, c: Category, ps: seq<seq<byte>>, cs: seq<Category>)
    requires CategoryOf(dec, p) == Some(c) && Categories(dec, ps, cs)
    ensures Categories(dec, [p] + ps, [c] + cs)
  {
    hide CategoryOf;
  }

  lemma {:induction false} CatalogFromExact(dec: Text, fs: seq<Field>, m: Catalog) returns (cs: seq<Category>)
    requires CatalogFrom(dec, fs, m).Some?
    ensures Values(fs, 1) == [] && Categories(dec, Payloads(fs, 1), cs)
    ensures forall name :: Leaves(cs, name, m, CatalogFrom(dec, fs, m).value)
  {
    cs := [];
    if fs != [] {
      var f, more := fs[0], fs[1..];
      hide CategoryOf, Stored, Categories, Leaves;
      match f
      case Chunk(1, p) =>
        var c := CategoryOf(dec, p).value;
        var rest := CatalogFromExact(dec, more, Stored(m, c));
        cs := [c] + rest;
        assert Payloads(fs, 1) == [p] + Payloads(more, 1) && Values(fs, 1) == Values(more, 1);
        var after := CatalogFrom(dec, fs, m).value;
        assert after == CatalogFrom(dec, more, Stored(m, c)).value;
        hide CatalogFrom, Payloads, Values;
        CategoriesFront(dec, p, c, Payloads(more, 1), rest);
        forall name ensures Leaves(cs, name, m, after) {
          LeavesFront(c, rest, name, m, after);
        }
      case _ =>
        cs := CatalogFromExact(dec, more, m);
        assert Payloads(fs, 1) == Payloads(more, 1) && Values(fs, 1) == Values(more, 1);
    }
  }

  lemma {:induction false} CatalogRead(dec: Text, fs: seq<Field>, m: Catalog, cs: seq<Category>)
    requires Values(fs, 1) == [] && Categories(dec, Payloads(fs, 1), cs)
    ensures CatalogFrom(dec, fs, m).Some?
  {
    if fs != [] {
      var f, more := fs[0], fs[1..];
      hide CategoryOf, Stored;
      match f
      case Chunk(1, p) =>
        assert Payloads(fs, 1) == [p] + Payloads(more, 1) && Values(fs, 1) == Values(more, 1);
        assert Payloads(fs, 1)[0] == p && CategoryOf(dec, Payloads(fs, 1)[0]) == Some(cs[0]);
        forall i | 0 <= i < |Payloads(more, 1)| ensures CategoryOf(dec, Payloads(more, 1)[i]) == Some(cs[1..][i]) {
          assert Payloads(fs, 1)[i + 1] == Payloads(more, 1)[i];
        }
        CatalogRead(dec, more, Stored(m, cs[0]), cs[1..]);
      case _ =>
        assert Payloads(fs, 1) == Payloads(more, 1) && Values(fs, 1) == Values(more, 1);
        CatalogRead(dec, more, m, cs);
    }
  }

  /** A file is decoded if and only if its fields are read, none of them is a number 1, and every category is; and then a name
      that is not empty stands for the domains of the last category with this name, if there is one. */
  lemma {:induction false} MeaningExact(dec: Text, buf: seq<byte>)
    ensures Meaning(dec, buf).Some? <==>
      FieldsOf(buf).Some? && Values(FieldsOf(buf).value, 1) == [] && exists cs :: Categories(dec, Payloads(FieldsOf(buf).value, 1), cs)
    ensures Meaning(dec, buf).Some? ==>
      exists cs :: Categories(dec, Payloads(FieldsOf(buf).value, 1), cs) && forall name :: Leaves(cs, name, map[], Meaning(dec, buf).value)
  {
    if FieldsOf(buf).Some? {
      var fs := FieldsOf(buf).value;
      hide FieldsOf, Categories, Leaves, Values, Payloads, CatalogFrom;
      if Meaning(dec, buf).Some? {
        var cs := CatalogFromExact(dec, fs, map[]);
      }
      if Values(fs, 1) == [] && exists cs :: Categories(dec, Payloads(fs, 1), cs) {
        var cs :| Categories(dec, Payloads(fs, 1), cs);
        CatalogRead(dec, fs, map[], cs);
      }
    }
  }
}

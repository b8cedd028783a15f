/** Trimming keeps the meaning of a geodata file, loses no byte it keeps, and composes. */
module GeoTrimProofs {
  import opened Bytes
  import opened GeoWire
  import opened GeoTrim

  /* ---- raw entries stand alone ---- */

  lemma {:induction false} VarintPrefix(s: seq<byte>, k: nat, t: seq<byte>)
    requires VarintOf(s).Some? && VarintOf(s).value.1 <= k <= |s|
    ensures VarintOf(s[..k] + t) == VarintOf(s)
  {
    VarintOwnBytes(s, k);
    VarintLocal(s[..k], t);
  }

  /** The entry whose tag and length fill the first `p` bytes of `raw`. */
  lemma {:induction false} EntryFromParts(raw: seq<byte>, t: seq<byte>, i: nat, p: nat, len: nat)
    requires i <= p <= |raw|
    requires VarintOf(raw + t).Some? && VarintOf(raw + t).value.1 == i
    requires VarintOf((raw + t)[i..]) == Some((len, p - i))
    requires VarintOf(raw + t).value.0 / 8 == 1 && VarintOf(raw + t).value.0 % 8 == 2
    requires p + len == |raw| || (t == [] && p + len > |raw|)
    ensures FirstEntry(raw + t) == Done(Entry(raw[p..], raw))
  {
    hide VarintOf;
    var s := raw + t;
    assert s[i..][p - i..] == raw[p..] + t;
    assert Head(raw[p..] + t, len) == raw[p..];
    assert Head(s, p + len) == raw;
  }

  /** An entry reads the same from its own bytes, and, when bytes followed it, in front of any others. */
  lemma {:induction false} EntryOwnBytes(s: seq<byte>, t: seq<byte>)
    requires FirstEntry(s).Done?
    requires t == [] || |FirstEntry(s).value.raw| < |s|
    ensures FirstEntry(FirstEntry(s).value.raw + t) == FirstEntry(s)
  {
    hide VarintOf;
    var raw := FirstEntry(s).value.raw;
    var (key, i) := VarintOf(s).value;
    var (len, n) := VarintOf(s[i..]).value;
    var k := |raw|;
    assert raw == s[..k] && i + n <= k;
    VarintPrefix(s, k, t);
    VarintPrefix(s[i..], k - i, t);
    assert (raw + t)[i..] == s[i..][..k - i] + t;
    EntryFromParts(raw, t, i, i + n, len);
    assert s == raw + s[k..];
    assert (raw + s[k..])[i..] == s[i..];
    EntryFromParts(raw, s[k..], i, i + n, len);
  }

  ghost predicate StandsAlone(e: Entry) {
    e.raw != [] && FirstEntry(e.raw) == Done(e)
  }

  ghost predicate StandsAnywhere(e: Entry) {
    forall t :: FirstEntry(e.raw + t) == Done(e)
  }

  /** Entries that can be joined in this order: each is complete unless it is the last. */
  ghost predicate Chain(named: seq<NamedEntry>) {
    named == [] ||
    (StandsAlone(named[0].entry) && (named[1..] != [] ==> StandsAnywhere(named[0].entry)) && Chain(named[1..]))
  }

  ghost predicate NamesRight(dec: Text, named: seq<NamedEntry>) {
    forall i :: 0 <= i < |named| ==> NameOf(dec, named[i].entry.payload) == Done(named[i].name)
  }

  function EntriesOf(named: seq<NamedEntry>): seq<Entry> {
    if named == [] then [] else [named[0].entry] + EntriesOf(named[1..])
  }

  lemma {:induction false} NamedEntriesShape(dec: Text, es: seq<Entry>)
    requires NamedEntries(dec, es).Done?
    ensures NamesRight(dec, NamedEntries(dec, es).value) && EntriesOf(NamedEntries(dec, es).value) == es
  {
    if es != [] {
      NamedEntriesShape(dec, es[1..]);
      var named := NamedEntries(dec, es).value;
      assert named[1..] == NamedEntries(dec, es[1..]).value;
      assert es == [es[0]] + es[1..];
    }
  }

  lemma {:induction false} NamedFromShape(dec: Text, named: seq<NamedEntry>)
    requires NamesRight(dec, named)
    ensures NamedEntries(dec, EntriesOf(named)) == Done(named)
  {
    if named != [] {
      assert NameOf(dec, named[0].entry.payload) == Done(named[0].name);
      NamedFromShape(dec, named[1..]);
      assert EntriesOf(named)[1..] == EntriesOf(named[1..]);
      assert named == [named[0]] + named[1..];
    }
  }

  /** A parsed file is the join of its raw entries, which form a chain. */
  lemma {:induction false} ParsedChain(buf: seq<byte>, named: seq<NamedEntry>)
    requires Entries(buf) == Done(EntriesOf(named))
    ensures Joined(named) == buf && Chain(named)
    decreases |buf|
  {
    hide FirstEntry;
    if buf == [] {
      assert named == [];
    } else {
      var e := FirstEntry(buf).value;
      var rest := buf[|e.raw|..];
      assert EntriesOf(named) == [e] + Entries(rest).value;
      assert EntriesOf(named)[1..] == EntriesOf(named[1..]) == Entries(rest).value;
      assert named[0].entry == e;
      ParsedChain(rest, named[1..]);
      EntryOwnBytes(buf, []);
      assert e.raw + [] == e.raw;
      if named[1..] != [] {
        assert rest != [];
        forall t ensures FirstEntry(e.raw + t) == Done(e) {
          EntryOwnBytes(buf, t);
        }
      }
    }
  }

  /** A chain parses back, from its joined bytes, to exactly its entries. */
  lemma {:induction false} ChainParses(named: seq<NamedEntry>)
    requires Chain(named)
    ensures Entries(Joined(named)) == Done(EntriesOf(named))
  {
    hide FirstEntry;
    if named != [] {
      ChainParses(named[1..]);
      var e, tail := named[0].entry, Joined(named[1..]);
      if named[1..] == [] {
        assert e.raw + tail == e.raw;
      }
      assert FirstEntry(e.raw + tail) == Done(e);
      assert (e.raw + tail)[|e.raw|..] == tail;
    }
  }

  lemma {:induction false} KeptChain(dec: Text, named: seq<NamedEntry>, keep: set<string>)
    requires Chain(named) && NamesRight(dec, named)
    ensures Chain(Kept(named, keep)) && NamesRight(dec, Kept(named, keep))
  {
    if named != [] {
      KeptChain(dec, named[1..], keep);
      var rest := Kept(named[1..], keep);
      if Wanted(named[0].name, keep) {
        assert Kept(named, keep)[1..] == rest;
        assert named[1..] == [] ==> rest == [];
      } else {
        assert Kept(named, keep) == rest;
      }
    }
  }

  /** Joining every raw entry gives back the file; the kept ones re-parse to themselves with their names. */
  lemma {:induction false} JoinAndReparse(dec: Text, buf: seq<byte>, keep: set<string>)
    requires Contents(dec, buf).Done?
    ensures Joined(Contents(dec, buf).value) == buf
    ensures var kept := Kept(Contents(dec, buf).value, keep); Contents(dec, Joined(kept)) == Done(kept)
  {
    hide Chain, Entries, NamedEntries, Kept, Joined;
    var named := Contents(dec, buf).value;
    NamedEntriesShape(dec, Entries(buf).value);
    ParsedChain(buf, named);
    KeptChain(dec, named, keep);
    ChainParses(Kept(named, keep));
    NamedFromShape(dec, Kept(named, keep));
  }

  /* ---- trimming composes ---- */

  lemma {:induction false} KeptTwice(named: seq<NamedEntry>, k1: set<string>, k2: set<string>)
    ensures Kept(Kept(named, k1), k2) == Kept(named, k1 * k2)
  {
    if named != [] {
      KeptTwice(named[1..], k1, k2);
      if Wanted(named[0].name, k1) {
        assert Kept(named, k1)[1..] == Kept(named[1..], k1);
      } else {
        assert Kept(named, k1) == Kept(named[1..], k1);
      }
    }
  }

  /** Trimming a trimmed file is trimming once by the names both runs keep, a run that keeps nothing included. */
  lemma {:induction false} TrimTwice(dec: Text, buf: seq<byte>, k1: set<string>, k2: set<string>)
    requires Trimmed(dec, buf, k1).Done?
    ensures Trimmed(dec, Trimmed(dec, buf, k1).value, k2) == Trimmed(dec, buf, k1 * k2)
  {
    JoinAndReparse(dec, buf, k1);
    KeptTwice(Contents(dec, buf).value, k1, k2);
  }

  /* ---- trimming preserves meaning ---- */

  function Restricted(m: Catalog, keep: set<string>): Catalog {
    map name | name in m && name in keep :: m[name]
  }

  function FirstName(dec: Text, fs: seq<Field>): Option<string> {
    if fs == [] then None
    else if fs[0].Chunk? && fs[0].num == 1 then Some(dec(fs[0].payload))
    else FirstName(dec, fs[1..])
  }

  function LastName(dec: Text, fs: seq<Field>, name: Option<string>): Option<string> {
    if fs == [] then name
    else LastName(dec, fs[1..], if fs[0].Chunk? && fs[0].num == 1 then Some(dec(fs[0].payload)) else name)
  }

  /** The name the trimmer reads and the name the decoder reads are both wanted or both not. */
  predicate NamesAgree(dec: Text, payload: seq<byte>, keep: set<string>) {
    var fs := FieldsOf(payload);
    fs.Some? ==> (Wanted(FirstName(dec, fs.value), keep) <==> Wanted(LastName(dec, fs.value, None), keep))
  }

  function NameFields(fs: seq<Field>): nat {
    if fs == [] then 0 else (if fs[0].Chunk? && fs[0].num == 1 then 1 else 0) + NameFields(fs[1..])
  }

  lemma {:induction false} NoNameFields(dec: Text, fs: seq<Field>, name: Option<string>)
    requires NameFields(fs) == 0
    ensures LastName(dec, fs, name) == name
  {
    if fs != [] {
      NoNameFields(dec, fs[1..], name);
    }
  }

  lemma {:induction false} OneNameSame(dec: Text, fs: seq<Field>)
    requires NameFields(fs) <= 1
    ensures LastName(dec, fs, None) == FirstName(dec, fs)
  {
    if fs != [] {
      if fs[0].Chunk? && fs[0].num == 1 {
        NoNameFields(dec, fs[1..], Some(dec(fs[0].payload)));
      } else {
        OneNameSame(dec, fs[1..]);
      }
    }
  }

  lemma {:induction false} NameIsFirst(dec: Text, s: seq<byte>)
    requires FieldsOf(s).Some?
    ensures NameOf(dec, s) == Done(FirstName(dec, FieldsOf(s).value))
    decreases |s|
  {
    if s != [] {
      var (f, rest) := OneField(s).value;
      assert FieldsOf(s).value == [f] + FieldsOf(rest).value;
      assert FieldsOf(s).value[1..] == FieldsOf(rest).value;
      if f.Chunk? && f.num == 1 {
        assert NameStep(dec, s) == Stop(Done(Some(dec(f.payload))));
      } else {
        assert NameStep(dec, s) == GoOn(rest);
        NameIsFirst(dec, rest);
      }
    }
  }

  lemma {:induction false} CategoryName(dec: Text, fs: seq<Field>, c: Category)
    requires CategoryFrom(dec, fs, c).Some?
    ensures CategoryFrom(dec, fs, c).value.name == LastName(dec, fs, c.name)
  {
    if fs != [] {
      match fs[0]
      case Chunk(1, p) => CategoryName(dec, fs[1..], Category(Some(dec(p)), c.domains));
      case Chunk(2, p) =>
        CategoryName(dec, fs[1..], Category(c.name, c.domains + [DomainFrom(dec, FieldsOf(p).value, Domain(0, ""))]));
      case _ => CategoryName(dec, fs[1..], c);
    }
  }

  function Chunks(es: seq<Entry>): seq<Field> {
    if es == [] then [] else [Chunk(1, es[0].payload)] + Chunks(es[1..])
  }

  /** The two scripts cut a file into the same top-level entries. */
  lemma {:induction false} SameTopLevel(buf: seq<byte>)
    requires Entries(buf).Done?
    ensures FieldsOf(buf) == Some(Chunks(Entries(buf).value))
    decreases |buf|
  {
    hide VarintOf;
    if buf != [] {
      var e := FirstEntry(buf).value;
      var rest := buf[|e.raw|..];
      SameTopLevel(rest);
      assert Entries(buf).value == [e] + Entries(rest).value;
      assert Entries(buf).value[1..] == Entries(rest).value;
      var (key, i) := VarintOf(buf).value;
      var (len, n) := VarintOf(buf[i..]).value;
      assert Rest(buf[i..][n..], len) == rest;
      assert OneField(buf) == Some((Chunk(1, e.payload), rest));
    }
  }

  ghost predicate AllAgree(dec: Text, es: seq<Entry>, keep: set<string>) {
    forall i :: 0 <= i < |es| ==> NamesAgree(dec, es[i].payload, keep)
  }

  /** A category that decodes has a name the trimmer reads without raising. */
  lemma {:induction false} DecodedName(dec: Text, payload: seq<byte>)
    requires CategoryOf(dec, payload).Some?
    ensures NameOf(dec, payload) == Done(FirstName(dec, FieldsOf(payload).value))
    ensures CategoryOf(dec, payload).value.name == LastName(dec, FieldsOf(payload).value, None)
  {
    NameIsFirst(dec, payload);
    CategoryName(dec, FieldsOf(payload).value, Category(None, []));
  }

  lemma {:induction false} DecodedNames(dec: Text, es: seq<Entry>, m: Catalog)
    requires CatalogFrom(dec, Chunks(es), m).Some?
    ensures NamedEntries(dec, es).Done?
  {
    if es != [] {
      var c := CategoryOf(dec, es[0].payload).value;
      DecodedName(dec, es[0].payload);
      assert Chunks(es)[1..] == Chunks(es[1..]);
      DecodedNames(dec, es[1..], Stored(m, c));
    }
  }

  lemma {:induction false} RestrictStored(m: Catalog, c: Category, keep: set<string>)
    requires "" !in keep
    ensures Restricted(Stored(m, c), keep) == if Wanted(c.name, keep) then Stored(Restricted(m, keep), c) else Restricted(m, keep)
  {
  }

  /** Decoding the kept entries is decoding all of them and then dropping the names not kept. */
  lemma {:induction false} RestrictCatalog(dec: Text, named: seq<NamedEntry>, keep: set<string>, m: Catalog)
    requires "" !in keep && NamesRight(dec, named) && AllAgree(dec, EntriesOf(named), keep)
    requires CatalogFrom(dec, Chunks(EntriesOf(named)), m).Some?
    ensures CatalogFrom(dec, Chunks(EntriesOf(Kept(named, keep))), Restricted(m, keep))
         == Some(Restricted(CatalogFrom(dec, Chunks(EntriesOf(named)), m).value, keep))
  {
    if named != [] {
      var e, es := named[0].entry, EntriesOf(named);
      assert NameOf(dec, e.payload) == Done(named[0].name);
      assert es[0] == e && NamesAgree(dec, es[0].payload, keep);
      assert es[1..] == EntriesOf(named[1..]) && Chunks(es)[1..] == Chunks(es[1..]);
      forall i | 0 <= i < |es[1..]| ensures NamesAgree(dec, es[1..][i].payload, keep) {
        assert es[1..][i] == es[i + 1];
      }
      var c := CategoryOf(dec, e.payload).value;
      DecodedName(dec, e.payload);
      RestrictStored(m, c, keep);
      RestrictCatalog(dec, named[1..], keep, Stored(m, c));
      var rest := Kept(named[1..], keep);
      if Wanted(named[0].name, keep) {
        assert Kept(named, keep)[1..] == rest;
        assert EntriesOf(Kept(named, keep)) == [e] + EntriesOf(rest);
        assert Chunks([e] + EntriesOf(rest))[1..] == Chunks(EntriesOf(rest)) by {
          assert ([e] + EntriesOf(rest))[1..] == EntriesOf(rest);
        }
      } else {
        assert Kept(named, keep) == rest;
      }
    }
  }

  lemma {:induction false} KeysOnlyGrow(dec: Text, fs: seq<Field>, m: Catalog)
    requires CatalogFrom(dec, fs, m).Some?
    ensures m.Keys <= CatalogFrom(dec, fs, m).value.Keys
  {
    if fs != [] {
      match fs[0]
      case Chunk(1, p) => KeysOnlyGrow(dec, fs[1..], Stored(m, CategoryOf(dec, p).value));
      case _ => KeysOnlyGrow(dec, fs[1..], m);
    }
  }

  /** A kept entry leaves a key behind. */
  lemma {:induction false} KeptMeansKey(dec: Text, kept: seq<NamedEntry>, keep: set<string>)
    requires "" !in keep && NamesRight(dec, kept) && AllAgree(dec, EntriesOf(kept), keep)
    requires kept != [] && Wanted(kept[0].name, keep)
    requires CatalogFrom(dec, Chunks(EntriesOf(kept)), map[]).Some?
    ensures CatalogFrom(dec, Chunks(EntriesOf(kept)), map[]).value != map[]
  {
    var e, es := kept[0].entry, EntriesOf(kept);
    assert NameOf(dec, e.payload) == Done(kept[0].name);
    assert es[0] == e && NamesAgree(dec, es[0].payload, keep);
    var c := CategoryOf(dec, e.payload).value;
    DecodedName(dec, e.payload);
    assert Chunks(es)[1..] == Chunks(es[1..]);
    KeysOnlyGrow(dec, Chunks(es[1..]), Stored(map[], c));
    assert c.name.value in Stored(map[], c).Keys;
  }

  /** The trimmed file means the original restricted to the wanted names, or nothing matched and that is empty. */
  ghost predicate MeaningKept(dec: Text, buf: seq<byte>, keep: set<string>)
    requires Meaning(dec, buf).Some?
  {
    var wanted := Restricted(Meaning(dec, buf).value, keep);
    match Trimmed(dec, buf, keep)
    case Done(blob) => Meaning(dec, blob) == Some(wanted) && wanted != map[]
    case NothingMatched => wanted == map[]
    case _ => false
  }

  /** The promise of the trimmer. For every file both scripts can read, whose entries are named the same
      by both as far as the wanted names go, the trimmed file means the original restricted to the wanted
      names; the run reports that nothing matched exactly when that restriction is empty. */
  lemma {:induction false} TrimPreservesMeaning(dec: Text, buf: seq<byte>, keep: set<string>)
    requires "" !in keep && Entries(buf).Done? && Meaning(dec, buf).Some?
    requires AllAgree(dec, Entries(buf).value, keep)
    ensures MeaningKept(dec, buf, keep)
  {
    var es := Entries(buf).value;
    SameTopLevel(buf);
    DecodedNames(dec, es, map[]);
    NamedEntriesShape(dec, es);
    var named := NamedEntries(dec, es).value;
    RestrictCatalog(dec, named, keep, map[]);
    assert Restricted(map[], keep) == map[];
    JoinAndReparse(dec, buf, keep);
    var kept := Kept(named, keep);
    if kept != [] {
      var blob := Joined(kept);
      NamedEntriesShape(dec, Entries(blob).value);
      SameTopLevel(blob);
      KeptHead(named, keep);
      KeptAgree(dec, named, keep);
      KeptMeansKey(dec, kept, keep);
    }
  }

  lemma {:induction false} KeptHead(named: seq<NamedEntry>, keep: set<string>)
    requires Kept(named, keep) != []
    ensures Wanted(Kept(named, keep)[0].name, keep)
  {
    if !Wanted(named[0].name, keep) {
      KeptHead(named[1..], keep);
    }
  }

  lemma {:induction false} KeptAgree(dec: Text, named: seq<NamedEntry>, keep: set<string>)
    requires AllAgree(dec, EntriesOf(named), keep)
    ensures AllAgree(dec, EntriesOf(Kept(named, keep)), keep)
  {
    if named != [] {
      var es := EntriesOf(named);
      assert es[1..] == EntriesOf(named[1..]);
      forall i | 0 <= i < |es[1..]| ensures NamesAgree(dec, es[1..][i].payload, keep) {
        assert es[1..][i] == es[i + 1];
      }
      KeptAgree(dec, named[1..], keep);
      assert NamesAgree(dec, es[0].payload, keep);
      var kept := Kept(named, keep);
      if Wanted(named[0].name, keep) {
        assert kept[1..] == Kept(named[1..], keep);
        assert EntriesOf(kept) == [es[0]] + EntriesOf(kept[1..]);
      } else {
        assert kept == Kept(named[1..], keep);
      }
    }
  }

  /** The format gives every entry one name; then the two scripts agree whatever is wanted. */
  lemma {:induction false} OneNameAgrees(dec: Text, payload: seq<byte>, keep: set<string>)
    requires FieldsOf(payload).Some? ==> NameFields(FieldsOf(payload).value) <= 1
    ensures NamesAgree(dec, payload, keep)
  {
    if FieldsOf(payload).Some? {
      OneNameSame(dec, FieldsOf(payload).value);
    }
  }

  const TWO_NAMES: seq<byte> := [10, 1, 65, 10, 1, 66]

  lemma {:induction false} TwoNamesFields()
    ensures FieldsOf(TWO_NAMES) == Some([Chunk(1, [65]), Chunk(1, [66])])
  {
    var p := TWO_NAMES;
    var a, b := Chunk(1, [65]), Chunk(1, [66]);
    assert VarintOf(p) == Some((10, 1)) && VarintOf(p[1..]) == Some((1, 1)) && p[1..][1..] == [65] + p[3..];
    assert OneField(p) == Some((a, p[3..]));
    assert VarintOf(p[3..]) == Some((10, 1)) && VarintOf(p[3..][1..]) == Some((1, 1)) && p[3..][1..][1..] == p[5..] == [66];
    assert Head([66], 1) == [66] && Rest([66], 1) == [];
    assert OneField(p[3..]) == Some((b, []));
    assert FieldsOf([]) == Some([]);
    assert [b] + [] == [b] && [a] + [b] == [a, b];
    assert FieldsOf(p[3..]) == Some([b]);
  }

  lemma {:induction false} TwoNamesEntry(dec: Text)
    requires dec([65]) == "A" && dec([66]) == "B"
    ensures NameOf(dec, TWO_NAMES) == Done(Some("A"))
    ensures CategoryOf(dec, TWO_NAMES) == Some(Category(Some("B"), []))
  {
    TwoNamesFields();
    NameIsFirst(dec, TWO_NAMES);
    var a, b := Chunk(1, [65]), Chunk(1, [66]);
    assert [a, b][1..] == [b] && [b][1..] == [];
    assert CategoryFrom(dec, [b], Category(Some("A"), [])) == Some(Category(Some("B"), []));
  }

  lemma {:induction false} SingleEntryFile(p: seq<byte>)
    requires |p| == 6
    ensures Entries([10, 6] + p) == Done([Entry(p, [10, 6] + p)])
  {
    var buf := [10, 6] + p;
    assert VarintOf(buf) == Some((10, 1)) && VarintOf(buf[1..]) == Some((6, 1)) && buf[1..][1..] == p;
    var e := Entry(p, buf);
    assert Head(p, 6) == p && Head(buf, 8) == buf;
    assert FirstEntry(buf) == Done(e);
    assert Entries(buf[8..]) == Done([]);
    assert [e] + [] == [e];
  }

  lemma {:induction false} SingleEntryMeaning(dec: Text, e: Entry)
    requires Entries(e.raw) == Done([e]) && CategoryOf(dec, e.payload).Some?
    ensures Meaning(dec, e.raw) == Some(Stored(map[], CategoryOf(dec, e.payload).value))
  {
    SameTopLevel(e.raw);
    assert [e][1..] == [] && Chunks([]) == [];
    var f := Chunk(1, e.payload);
    assert Chunks([e]) == [f] && [f][1..] == [];
    var m := Stored(map[], CategoryOf(dec, e.payload).value);
    assert CatalogFrom(dec, [], m) == Some(m);
    assert CatalogFrom(dec, [f], map[]) == Some(m);
  }

  lemma {:induction false} SingleEntryTrim(dec: Text, e: Entry, name: string)
    requires Entries(e.raw) == Done([e]) && NameOf(dec, e.payload) == Done(Some(name))
    ensures Trimmed(dec, e.raw, {name}) == Done(e.raw)
  {
    var named := [NamedEntry(Some(name), e)];
    assert [e][1..] == [] && NamedEntries(dec, []) == Done([]) && named + [] == named;
    assert NamedEntries(dec, [e]) == Done(named);
    assert named[1..] == [] && Kept([], {name}) == [];
    assert Kept(named, {name}) == named;
    assert Joined(named) == e.raw + Joined([]) == e.raw;
  }

  /** Without agreement the promise fails: an entry named A and then B is kept under A, but decodes as B. */
  lemma {:induction false} TwoNamesLoseMeaning(dec: Text)
    requires dec([65]) == "A" && dec([66]) == "B"
    ensures var buf := [10, 6] + TWO_NAMES;
      && Trimmed(dec, buf, {"A"}) == Done(buf)
      && Meaning(dec, buf) == Some(map["B" := []])
      && Restricted(map["B" := []], {"A"}) == map[]
  {
    hide *;
    var e := Entry(TWO_NAMES, [10, 6] + TWO_NAMES);
    OnlyB();
    TwoNamesEntry(dec);
    SingleEntryFile(TWO_NAMES);
    SingleEntryMeaning(dec, e);
    SingleEntryTrim(dec, e, "A");
  }

  lemma {:induction false} OnlyB()
    ensures Stored(map[], Category(Some("B"), [])) == map["B" := []]
    ensures Restricted(map["B" := []], {"A"}) == map[] && |TWO_NAMES| == 6
  {
  }
}

/** Trimming a geodata file by category name (trim-geodata.py), judged by the independent decoder
    of dump-geosite-category.py. Text decoding is any function of the bytes, the same in both scripts. */
module GeoTrim {
  import opened Bytes
  import opened GeoWire

  type Text = seq<byte> -> string

  /* ---- trim-geodata.py ---- */

  datatype Entry = Entry(payload: seq<byte>, raw: seq<byte>)

  /** How a script run ends when it does not return a value. */
  datatype Outcome<T> = Raises | NotGeodata | NothingMatched | Done(value: T)

  /** The entry at the front of `s`: a length-delimited field 1, copied with its tag and length. */
  function FirstEntry(s: seq<byte>): (r: Outcome<Entry>)
    ensures r.Done? ==> 1 <= |r.value.raw| <= |s| && s == r.value.raw + s[|r.value.raw|..]
  {
    match VarintOf(s)
    case None => Raises
    case Some((key, i)) =>
      if key / 8 != 1 || key % 8 != 2 then NotGeodata
      else
        match VarintOf(s[i..])
        case None => Raises
        case Some((len, n)) =>
          Done(Entry(Head(s[i..][n..], len), Head(s, i + n + len)))
  }

  function Entries(s: seq<byte>): Outcome<seq<Entry>>
    decreases |s|
  {
    if s == [] then Done([])
    else
      var e := FirstEntry(s);
      if !e.Done? then Failed(e) else Before([e.value], Entries(s[|e.value.raw|..]))
  }

  function Failed<T, U>(o: Outcome<T>): Outcome<U>
    requires !o.Done?
  {
    match o
    case Raises => Raises
    case NotGeodata => NotGeodata
    case NothingMatched => NothingMatched
  }

  /** The entries already read, followed by the outcome of reading the rest. */
  function Before(out: seq<Entry>, more: Outcome<seq<Entry>>): Outcome<seq<Entry>> {
    if more.Done? then Done(out + more.value) else more
  }

  lemma {:induction false} BeforeStep(out: seq<Entry>, e: Entry, more: Outcome<seq<Entry>>)
    ensures Before(out, Before([e], more)) == Before(out + [e], more)
    ensures Before([], more) == more
  {
    if more.Done? {
      assert out + ([e] + more.value) == (out + [e]) + more.value;
      assert [] + more.value == more.value;
    }
  }

  /** One turn of the `top_level_entries` loop, with the index it leaves. */
  method ReadEntry(buf: seq<byte>, start: nat) returns (r: Outcome<Entry>, i: nat)
    requires start <= |buf|
    ensures r == FirstEntry(buf[start..])
    ensures r.Done? ==> i > start && Slice(buf, i, |buf|) == buf[start..][|r.value.raw|..]
  {
    hide VarintOf;
    i := start;
    var k := ReadVarint(buf, start);
    if k.None? {
      return Raises, i;
    }
    var (key, p) := k.value;
    if key / 8 != 1 || key % 8 != 2 {
      return NotGeodata, i;
    }
    var l := ReadVarint(buf, p);
    if l.None? {
      return Raises, i;
    }
    var (length, j) := l.value;
    i := j + length;
    SliceFrom(buf, j, length);
    SliceFrom(buf, start, i - start);
    assert VarintOf(buf[start..]).value == (key, p - start) && VarintOf(buf[p..]).value == (length, j - p);
    assert (p - start) + (j - p) + length == i - start;
    r := Done(Entry(Slice(buf, j, i), Slice(buf, start, i)));
  }

  method TopLevelEntries(buf: seq<byte>) returns (r: Outcome<seq<Entry>>)
    ensures r == Entries(buf)
  {
    var i, out := 0, [];
    assert Slice(buf, 0, |buf|) == buf;
    BeforeStep([], Entry([], []), Entries(buf));
    while i < |buf|
      invariant Entries(buf) == Before(out, Entries(Slice(buf, i, |buf|)))
      decreases |buf| - i
    {
      assert Slice(buf, i, |buf|) == buf[i..];
      var e, after := ReadEntry(buf, i);
      if !e.Done? {
        return Failed(e);
      }
      BeforeStep(out, e.value, Entries(Slice(buf, after, |buf|)));
      out, i := out + [e.value], after;
    }
    assert out + [] == out;
    return Done(out);
  }

  /** One turn of the `entry_name` loop: stop with a result, or go on with the bytes that are left. */
  datatype Search = Stop(result: Outcome<Option<string>>) | GoOn(rest: seq<byte>)

  function NameStep(dec: Text, s: seq<byte>): (r: Search)
    ensures r.GoOn? ==> |r.rest| < |s|
  {
    match VarintOf(s)
    case None => Stop(Raises)
    case Some((key, i)) =>
      if key % 8 == 2 then
        match VarintOf(s[i..])
        case None => Stop(Raises)
        case Some((len, n)) =>
          var t := s[i..][n..];
          if key / 8 == 1 then Stop(Done(Some(dec(Head(t, len))))) else GoOn(Rest(t, len))
      else if key % 8 == 0 then
        match VarintOf(s[i..])
        case None => Stop(Raises)
        case Some((_, n)) => GoOn(s[i..][n..])
      else if key % 8 == 5 then GoOn(Rest(s[i..], 4))
      else if key % 8 == 1 then GoOn(Rest(s[i..], 8))
      else Stop(Done(None))
  }

  /** The first field 1 of an entry; fixed-width fields are stepped over, any other wire type ends the search. */
  function NameOf(dec: Text, s: seq<byte>): Outcome<Option<string>>
    decreases |s|
  {
    if s == [] then Done(None)
    else
      match NameStep(dec, s)
      case Stop(result) => result
      case GoOn(rest) => NameOf(dec, rest)
  }

  method ReadNameStep(dec: Text, payload: seq<byte>, at: nat) returns (r: Search, i: nat)
    requires at <= |payload|
    ensures r == NameStep(dec, payload[at..])
    ensures r.GoOn? ==> i > at && Slice(payload, i, |payload|) == r.rest
  {
    hide VarintOf, Slice, Head, Rest;
    i := at;
    var k := ReadVarint(payload, at);
    if k.None? {
      return Stop(Raises), i;
    }
    var (key, p) := k.value;
    if key % 8 == 2 {
      var l := ReadVarint(payload, p);
      if l.None? {
        return Stop(Raises), i;
      }
      var (length, j) := l.value;
      SliceFrom(payload, j, length);
      i := j + length;
      r := if key / 8 == 1 then Stop(Done(Some(dec(Slice(payload, j, i))))) else GoOn(Slice(payload, i, |payload|));
    } else if key % 8 == 0 {
      var v := ReadVarint(payload, p);
      if v.None? {
        return Stop(Raises), i;
      }
      i := v.value.1;
      SliceAll(payload, i);
      r := GoOn(Slice(payload, i, |payload|));
    } else if key % 8 == 5 {
      SliceFrom(payload, p, 4);
      i := p + 4;
      r := GoOn(Slice(payload, i, |payload|));
    } else if key % 8 == 1 {
      SliceFrom(payload, p, 8);
      i := p + 8;
      r := GoOn(Slice(payload, i, |payload|));
    } else {
      r := Stop(Done(None));
    }
  }

  method EntryName(dec: Text, payload: seq<byte>) returns (r: Outcome<Option<string>>)
    ensures r == NameOf(dec, payload)
  {
    var i := 0;
    assert Slice(payload, 0, |payload|) == payload;
    while i < |payload|
      invariant NameOf(dec, payload) == NameOf(dec, Slice(payload, i, |payload|))
      decreases |payload| - i
    {
      assert Slice(payload, i, |payload|) == payload[i..];
      var step, after := ReadNameStep(dec, payload, i);
      if step.Stop? {
        return step.result;
      }
      i := after;
    }
    return Done(None);
  }

  datatype NamedEntry = NamedEntry(name: Option<string>, entry: Entry)

  /** Every entry with its name; one entry whose name cannot be read fails the whole run. */
  function NamedEntries(dec: Text, es: seq<Entry>): Outcome<seq<NamedEntry>> {
    if es == [] then Done([])
    else
      var name := NameOf(dec, es[0].payload);
      if !name.Done? then Failed(name)
      else
        Onward([NamedEntry(name.value, es[0])], NamedEntries(dec, es[1..]))
  }

  predicate Wanted(name: Option<string>, keep: set<string>) {
    name.Some? && name.value in keep
  }

  function Kept(named: seq<NamedEntry>, keep: set<string>): seq<NamedEntry> {
    if named == [] then []
    else (if Wanted(named[0].name, keep) then [named[0]] else []) + Kept(named[1..], keep)
  }

  function Joined(named: seq<NamedEntry>): seq<byte> {
    if named == [] then [] else named[0].entry.raw + Joined(named[1..])
  }

  function Select(named: seq<NamedEntry>, keep: set<string>): Outcome<seq<byte>> {
    var kept := Kept(named, keep);
    if kept == [] then NothingMatched else Done(Joined(kept))
  }

  /** Names of a file's entries, in file order. */
  function Contents(dec: Text, buf: seq<byte>): Outcome<seq<NamedEntry>> {
    var top := Entries(buf);
    if top.Done? then NamedEntries(dec, top.value) else Failed(top)
  }

  /** The file the script writes for a set of wanted names. */
  function Trimmed(dec: Text, buf: seq<byte>, keep: set<string>): Outcome<seq<byte>> {
    var named := Contents(dec, buf);
    if named.Done? then Select(named.value, keep) else Failed(named)
  }

  method NameEntries(dec: Text, es: seq<Entry>) returns (r: Outcome<seq<NamedEntry>>)
    ensures r == NamedEntries(dec, es)
  {
    var named := [];
    assert es[0..] == es;
    OnwardStep([], NamedEntry(None, Entry([], [])), NamedEntries(dec, es));
    for i := 0 to |es|
      invariant NamedEntries(dec, es) == Onward(named, NamedEntries(dec, es[i..]))
    {
      assert es[i..][1..] == es[i + 1..];
      var name := EntryName(dec, es[i].payload);
      if !name.Done? {
        return Failed(name);
      }
      OnwardStep(named, NamedEntry(name.value, es[i]), NamedEntries(dec, es[i + 1..]));
      named := named + [NamedEntry(name.value, es[i])];
    }
    assert es[|es|..] == [] && named + [] == named;
    return Done(named);
  }

  function Onward(out: seq<NamedEntry>, more: Outcome<seq<NamedEntry>>): Outcome<seq<NamedEntry>> {
    if more.Done? then Done(out + more.value) else more
  }

  lemma {:induction false} OnwardStep(out: seq<NamedEntry>, e: NamedEntry, more: Outcome<seq<NamedEntry>>)
    ensures Onward(out, Onward([e], more)) == Onward(out + [e], more)
    ensures Onward([], more) == more
  {
    if more.Done? {
      assert out + ([e] + more.value) == (out + [e]) + more.value;
      assert [] + more.value == more.value;
    }
  }

  method Trim(dec: Text, buf: seq<byte>, keep: set<string>) returns (r: Outcome<seq<byte>>)
    ensures r == Trimmed(dec, buf, keep)
  {
    var top := TopLevelEntries(buf);
    if !top.Done? {
      return Failed(top);
    }
    var named := NameEntries(dec, top.value);
    if !named.Done? {
      return Failed(named);
    }
    r := Select(named.value, keep);
  }

  /* ---- dump-geosite-category.py ---- */

  datatype Domain = Domain(kind: nat, value: string)

  function DomainFrom(dec: Text, fs: seq<Field>, d: Domain): Domain {
    if fs == [] then d
    else
      DomainFrom(dec, fs[1..], match fs[0]
        case Number(1, v) => Domain(v, d.value)
        case Chunk(2, p) => Domain(d.kind, dec(p))
        case _ => d)
  }

  /** Name and domains of one category; a later field 1 replaces the name. */
  datatype Category = Category(name: Option<string>, domains: seq<Domain>)

  function CategoryFrom(dec: Text, fs: seq<Field>, c: Category): Option<Category> {
    if fs == [] then Some(c)
    else
      match fs[0]
      case Chunk(1, p) => CategoryFrom(dec, fs[1..], Category(Some(dec(p)), c.domains))
      case Chunk(2, p) =>
        (match FieldsOf(p)
         case None => None
         case Some(dfs) => CategoryFrom(dec, fs[1..], Category(c.name, c.domains + [DomainFrom(dec, dfs, Domain(0, ""))])))
      case _ => CategoryFrom(dec, fs[1..], c)
  }

  function CategoryOf(dec: Text, payload: seq<byte>): Option<Category> {
    match FieldsOf(payload)
    case None => None
    case Some(fs) => CategoryFrom(dec, fs, Category(None, []))
  }

  type Catalog = map<string, seq<Domain>>

  function Stored(m: Catalog, c: Category): Catalog {
    if c.name.Some? && c.name.value != "" then m[c.name.value := c.domains] else m
  }

  function CatalogFrom(dec: Text, fs: seq<Field>, m: Catalog): Option<Catalog> {
    if fs == [] then Some(m)
    else
      match fs[0]
      case Chunk(1, p) =>
        (match CategoryOf(dec, p)
         case None => None
         case Some(c) => CatalogFrom(dec, fs[1..], Stored(m, c)))
      case Number(1, _) => None
      case _ => CatalogFrom(dec, fs[1..], m)
  }

  /** The category map a file stands for; None when the decoder raises. */
  function Meaning(dec: Text, buf: seq<byte>): Option<Catalog> {
    match FieldsOf(buf)
    case None => None
    case Some(fs) => CatalogFrom(dec, fs, map[])
  }

  method ParseGeosite(dec: Text, buf: seq<byte>) returns (r: Option<Catalog>)
    ensures r == Meaning(dec, buf)
  {
    var top := Fields(buf);
    if top.None? {
      return None;
    }
    var fs, out := top.value, map[];
    assert fs[0..] == fs;
    for i := 0 to |fs|
      invariant Meaning(dec, buf) == CatalogFrom(dec, fs[i..], out)
    {
      assert fs[i..][1..] == fs[i + 1..];
      match fs[i] {
        case Chunk(num, p) =>
          if num == 1 {
            var c := ParseCategory(dec, p);
            if c.None? {
              return None;
            }
            if c.value.name.Some? && c.value.name.value != "" {
              out := out[c.value.name.value := c.value.domains];
            }
          }
        case Number(num, _) =>
          if num == 1 {
            return None;
          }
      }
    }
    assert fs[|fs|..] == [];
    return Some(out);
  }

  method ParseCategory(dec: Text, entry: seq<byte>) returns (r: Option<Category>)
    ensures r == CategoryOf(dec, entry)
  {
    var efs := Fields(entry);
    if efs.None? {
      return None;
    }
    var fs, name, domains := efs.value, None, [];
    assert fs[0..] == fs;
    for i := 0 to |fs|
      invariant CategoryOf(dec, entry) == CategoryFrom(dec, fs[i..], Category(name, domains))
    {
      assert fs[i..][1..] == fs[i + 1..];
      match fs[i] {
        case Chunk(num, p) =>
          if num == 1 {
            name := Some(dec(p));
          } else if num == 2 {
            var dfs := Fields(p);
            if dfs.None? {
              return None;
            }
            var d := Domain(0, "");
            assert dfs.value[0..] == dfs.value;
            for k := 0 to |dfs.value|
              invariant DomainFrom(dec, dfs.value, Domain(0, "")) == DomainFrom(dec, dfs.value[k..], d)
            {
              assert dfs.value[k..][1..] == dfs.value[k + 1..];
              match dfs.value[k] {
                case Number(n, v) => if n == 1 { d := Domain(v, d.value); }
                case Chunk(n, q) => if n == 2 { d := Domain(d.kind, dec(q)); }
              }
            }
            assert dfs.value[|dfs.value|..] == [];
            domains := domains + [d];
          }
        case Number(_, _) =>
      }
    }
    assert fs[|fs|..] == [];
    return Some(Category(name, domains));
  }
}

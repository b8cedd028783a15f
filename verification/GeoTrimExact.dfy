/** Exactly when trimming keeps the meaning of a file whose entries decode to different names. */
module GeoTrimExact {
  import opened Bytes
  import opened GeoWire
  import opened GeoTrim
  import opened GeoTrimProofs

  /** The name the decoder gives an entry. */
  function DecodedAs(dec: Text, payload: seq<byte>): Option<string> {
    var c := CategoryOf(dec, payload);
    if c.Some? then c.value.name else None
  }

  /** No two entries decode to one name, and none to the empty one, which the decoder drops. */
  ghost predicate NamesApart(dec: Text, es: seq<Entry>) {
    && (forall i :: 0 <= i < |es| ==> DecodedAs(dec, es[i].payload) != Some(""))
    && (forall i, j :: 0 <= i < j < |es| && DecodedAs(dec, es[i].payload).Some? ==>
          DecodedAs(dec, es[i].payload) != DecodedAs(dec, es[j].payload))
  }

  /** Some entry decodes to this name. */
  ghost predicate Decodes(dec: Text, es: seq<Entry>, name: string) {
    exists i :: 0 <= i < |es| && DecodedAs(dec, es[i].payload) == Some(name)
  }

  lemma {:induction false} DecodesFirst(dec: Text, es: seq<Entry>, name: string)
    requires es != []
    ensures Decodes(dec, es, name) <==> DecodedAs(dec, es[0].payload) == Some(name) || Decodes(dec, es[1..], name)
  {
    hide DecodedAs;
    if Decodes(dec, es[1..], name) {
      var i :| 0 <= i < |es[1..]| && DecodedAs(dec, es[1..][i].payload) == Some(name);
      assert es[i + 1] == es[1..][i];
    }
    if Decodes(dec, es, name) && DecodedAs(dec, es[0].payload) != Some(name) {
      var i :| 0 <= i < |es| && DecodedAs(dec, es[i].payload) == Some(name);
      assert es[1..][i - 1] == es[i];
    }
  }

  /** The categories of a file are the names its entries decode to. */
  lemma {:induction false} NamesOfCatalog(dec: Text, es: seq<Entry>, m: Catalog, name: string)
    requires CatalogFrom(dec, Chunks(es), m).Some? && name != ""
    ensures name in CatalogFrom(dec, Chunks(es), m).value <==> name in m || Decodes(dec, es, name)
    decreases |es|
  {
    if es != [] {
      DecodesFirst(dec, es, name);
      assert Chunks(es)[1..] == Chunks(es[1..]);
      hide CategoryOf, Decodes, Chunks;
      var c := CategoryOf(dec, es[0].payload).value;
      NamesOfCatalog(dec, es[1..], Stored(m, c), name);
    }
  }

  /** Every entry of a file that decodes has a category. */
  lemma {:induction false} AllDecode(dec: Text, es: seq<Entry>, m: Catalog, i: nat)
    requires CatalogFrom(dec, Chunks(es), m).Some? && i < |es|
    ensures CategoryOf(dec, es[i].payload).Some?
    decreases |es|
  {
    assert Chunks(es)[1..] == Chunks(es[1..]);
    hide CategoryOf, Chunks;
    if i > 0 {
      AllDecode(dec, es[1..], Stored(m, CategoryOf(dec, es[0].payload).value), i - 1);
    }
  }

  lemma {:induction false} FirstOrNone(dec: Text, fs: seq<Field>)
    ensures FirstName(dec, fs).Some? ==> LastName(dec, fs, None).Some?
  {
    if fs != [] {
      if fs[0].Chunk? && fs[0].num == 1 {
        NamedStays(dec, fs[1..], dec(fs[0].payload));
      } else {
        FirstOrNone(dec, fs[1..]);
      }
    }
  }

  lemma {:induction false} NamedStays(dec: Text, fs: seq<Field>, name: string)
    ensures LastName(dec, fs, Some(name)).Some?
  {
    if fs != [] {
      NamedStays(dec, fs[1..], if fs[0].Chunk? && fs[0].num == 1 then dec(fs[0].payload) else name);
    }
  }

  /** An entry of a decodable file, by both its names. */
  lemma {:induction false} TwoNames(dec: Text, named: seq<NamedEntry>, i: nat, keep: set<string>)
    requires NamesRight(dec, named) && i < |named| && CategoryOf(dec, named[i].entry.payload).Some?
    ensures var last := DecodedAs(dec, named[i].entry.payload);
      && (NamesAgree(dec, named[i].entry.payload, keep) <==> (Wanted(named[i].name, keep) <==> Wanted(last, keep)))
      && (named[i].name.Some? ==> last.Some?)
  {
    var p := named[i].entry.payload;
    assert NameOf(dec, p) == Done(named[i].name);
    DecodedName(dec, p);
    FirstOrNone(dec, FieldsOf(p).value);
    hide FieldsOf, FirstName, LastName, NameOf;
  }

  lemma {:induction false} EntryAt(named: seq<NamedEntry>, i: nat)
    requires i < |named|
    ensures |EntriesOf(named)| == |named| && EntriesOf(named)[i] == named[i].entry
  {
    if named != [] {
      EntriesLength(named);
      if i > 0 {
        EntryAt(named[1..], i - 1);
      }
    }
  }

  lemma {:induction false} EntriesLength(named: seq<NamedEntry>)
    ensures |EntriesOf(named)| == |named|
  {
    if named != [] {
      EntriesLength(named[1..]);
    }
  }

  lemma {:induction false} KeptMembers(named: seq<NamedEntry>, keep: set<string>, e: NamedEntry)
    ensures e in Kept(named, keep) <==> e in named && Wanted(e.name, keep)
  {
    if named != [] {
      KeptMembers(named[1..], keep, e);
      assert named == [named[0]] + named[1..];
    }
  }

  /** A name decoded from the kept entries is decoded from an entry whose first name is wanted. */
  lemma {:induction false} KeptDecodes(dec: Text, named: seq<NamedEntry>, keep: set<string>, name: string)
    ensures Decodes(dec, EntriesOf(Kept(named, keep)), name) <==>
      exists i :: 0 <= i < |named| && Wanted(named[i].name, keep) && DecodedAs(dec, named[i].entry.payload) == Some(name)
  {
    hide DecodedAs, Wanted;
    var kept := Kept(named, keep);
    EntriesLength(kept);
    if Decodes(dec, EntriesOf(kept), name) {
      var j :| 0 <= j < |EntriesOf(kept)| && DecodedAs(dec, EntriesOf(kept)[j].payload) == Some(name);
      EntryAt(kept, j);
      KeptMembers(named, keep, kept[j]);
      var i :| 0 <= i < |named| && named[i] == kept[j];
    }
    if i :| 0 <= i < |named| && Wanted(named[i].name, keep) && DecodedAs(dec, named[i].entry.payload) == Some(name) {
      KeptMembers(named, keep, named[i]);
      var j :| 0 <= j < |kept| && kept[j] == named[i];
      EntryAt(kept, j);
      assert DecodedAs(dec, EntriesOf(kept)[j].payload) == Some(name);
    }
  }

  /** What the file and the trimmed file hold, entry by entry. */
  lemma {:induction false} TrimmedNames(dec: Text, buf: seq<byte>, keep: set<string>) returns (named: seq<NamedEntry>)
    requires Entries(buf).Done? && Meaning(dec, buf).Some?
    ensures NamesRight(dec, named) && EntriesOf(named) == Entries(buf).value
    ensures Meaning(dec, buf) == CatalogFrom(dec, Chunks(EntriesOf(named)), map[])
    ensures match Trimmed(dec, buf, keep)
      case Done(blob) => Meaning(dec, blob) == CatalogFrom(dec, Chunks(EntriesOf(Kept(named, keep))), map[])
      case NothingMatched => Kept(named, keep) == []
      case _ => false
  {
    var es := Entries(buf).value;
    SameTopLevel(buf);
    hide FieldsOf, Entries, CatalogFrom, Joined, Kept;
    DecodedNames(dec, es, map[]);
    NamedEntriesShape(dec, es);
    named := NamedEntries(dec, es).value;
    JoinAndReparse(dec, buf, keep);
    var kept := Kept(named, keep);
    if kept != [] {
      var blob := Joined(kept);
      NamedEntriesShape(dec, Entries(blob).value);
      SameTopLevel(blob);
    }
  }

  /** Where one entry is wanted by one of its names and not by the other, the trimmed file and the restriction differ in
      the name it decodes to. */
  lemma {:induction false} DisagreementShows(dec: Text, named: seq<NamedEntry>, keep: set<string>, i: nat)
    requires "" !in keep && NamesRight(dec, named) && NamesApart(dec, EntriesOf(named)) && i < |named|
    requires CategoryOf(dec, named[i].entry.payload).Some? && !NamesAgree(dec, named[i].entry.payload, keep)
    ensures var name := DecodedAs(dec, named[i].entry.payload);
      && name.Some? && name.value != "" && Decodes(dec, EntriesOf(named), name.value)
      && (Decodes(dec, EntriesOf(Kept(named, keep)), name.value) <==> name.value !in keep)
  {
    TwoNames(dec, named, i, keep);
    EntryAt(named, i);
    var name := DecodedAs(dec, named[i].entry.payload);
    hide DecodedAs, NamesAgree, NamesRight, CategoryOf;
    assert DecodedAs(dec, EntriesOf(named)[i].payload) == name;
    KeptDecodes(dec, named, keep, name.value);
    if j :| 0 <= j < |named| && Wanted(named[j].name, keep) && DecodedAs(dec, named[j].entry.payload) == name {
      EntryAt(named, j);
      assert i == j;
    }
  }

  /** For every file both scripts can read, whose entries decode to different and non-empty names: the trimmed file means
      the restriction to the wanted names if and only if every entry is wanted by both of its names or by neither. */
  lemma {:induction false} TrimExact(dec: Text, buf: seq<byte>, keep: set<string>)
    requires "" !in keep && Entries(buf).Done? && Meaning(dec, buf).Some? && NamesApart(dec, Entries(buf).value)
    ensures MeaningKept(dec, buf, keep) <==> AllAgree(dec, Entries(buf).value, keep)
  {
    var es := Entries(buf).value;
    if AllAgree(dec, es, keep) {
      TrimPreservesMeaning(dec, buf, keep);
    } else {
      var i :| 0 <= i < |es| && !NamesAgree(dec, es[i].payload, keep);
      var named := TrimmedNames(dec, buf, keep);
      EntriesLength(named);
      EntryAt(named, i);
      AllDecode(dec, es, map[], i);
      DisagreementShows(dec, named, keep, i);
      var name := DecodedAs(dec, es[i].payload).value;
      NamesOfCatalog(dec, es, map[], name);
      hide Entries, Trimmed, Meaning, CatalogFrom, DecodedAs, NamesAgree, NamesApart, Kept, EntriesOf, Chunks, CategoryOf;
      var kept := EntriesOf(Kept(named, keep));
      if CatalogFrom(dec, Chunks(kept), map[]).Some? {
        NamesOfCatalog(dec, kept, map[], name);
      }
      NothingDecodes(dec, named, keep, name);
    }
  }

  lemma {:induction false} NothingDecodes(dec: Text, named: seq<NamedEntry>, keep: set<string>, name: string)
    ensures Kept(named, keep) == [] ==> !Decodes(dec, EntriesOf(Kept(named, keep)), name)
  {
  }
}

/** The reader undoes the writer for one entry: its header, its data, its descriptor. */
module ZipRoundTrip {
  import opened Wrappers
  import opened Bytes
  import opened ZipFormat
  import opened ZipPath
  import opened Dest
  import opened ZipReader
  import opened ZipWriter
  import Crc32
  import Text

  /** What the writer guarantees of the entries it emits. */
  predicate Written(e: Entry) {
    && Text.ValidUtf8(e.name) && |e.name| <= MAX_U16
    && e.name != [] && !IsDirectoryName(e.name)
    && Place(e.name).Ok?
    && |e.data| < 0x1_0000_0000_0000_0000
  }

  predicate AllWritten(es: seq<Entry>) {
    forall e :: e in es ==> Written(e)
  }

  function PathOf(e: Entry): Path
    requires Written(e)
  {
    Place(e.name).value
  }

  /** A size the writer stores plainly and the reader takes for the Zip64 marker. */
  predicate Ambiguous(e: Entry, offset: nat) {
    |e.data| == SENTINEL && offset <= MAX_U32
  }

  lemma LocalExtraLayout(size: nat)
    ensures var x := LocalExtra(size, true);
            && |x| == 20
            && x[..2] == LE(ZIP64_ID, 2) && x[2..4] == LE(16, 2)
            && x[4..12] == LE(size, 8) && x[12..20] == LE(size, 8)
  {
    hide LE;
    hide Fields;
    NoFields();
    FieldsCons(size, [], 8, []);
    assert [size] + [] == [size] && [8] + [] == [8];
    FieldsCons(size, [size], 8, [8]);
    assert [size] + [size] == [size, size] && [8] + [8] == [8, 8];
    FieldsCons(16, [size, size], 2, [8, 8]);
    assert [16] + [size, size] == [16, size, size] && [2] + [8, 8] == [2, 8, 8];
    FieldsCons(ZIP64_ID, [16, size, size], 2, [2, 8, 8]);
    assert [ZIP64_ID] + [16, size, size] == [ZIP64_ID, 16, size, size] && [2] + [2, 8, 8] == [2, 2, 8, 8];
  }

  lemma ParseLocalExtra(size: nat)
    requires size < 0x1_0000_0000_0000_0000
    ensures ParseZip64(LocalExtra(size, true)) == Ok((size, size))
  {
    LocalExtraLayout(size);
    Widths();
    ValueOfLE(ZIP64_ID, 2);
    ValueOfLE(16, 2);
    ValueOfLE(size, 8);
    hide LE;
    hide Fields;
    hide LocalExtra;
    hide Value;
  }

  /** A local header reads back, or is refused when its size is the Zip64 marker. */
  lemma HeaderRoundTrip(e: Entry, offset: nat, tail: seq<u8>)
    requires Written(e)
    ensures var zip64 := NeedsZip64(|e.data|, offset);
            ParseHeader(Fields(LocalFields(|e.name|, |e.data|, zip64), LOCAL_WIDTHS)
                        + (e.name + (LocalExtra(|e.data|, zip64) + tail)))
            == if Ambiguous(e, offset) then Err(Zip64Missing)
               else Ok((Header(e.name, FLAGS, 0, zip64, |e.data|, |e.data|), tail))
  {
    hide Fields;
    hide ReadFields;
    hide LocalExtra;
    hide ParseZip64;
    var zip64 := NeedsZip64(|e.data|, offset);
    var vals := LocalFields(|e.name|, |e.data|, zip64);
    var extra := LocalExtra(|e.data|, zip64);
    var after := e.name + (extra + tail);
    ExtraLengths(|e.data|, offset, zip64);
    assert Fit(vals, LOCAL_WIDTHS) by {
      Widths();
    }
    FieldsRoundTrip(vals, LOCAL_WIDTHS, after);
    assert after[..|e.name|] == e.name;
    assert after[|e.name|..|e.name| + |extra|] == extra;
    assert after[|e.name| + |extra|..] == tail;
    if zip64 {
      ParseLocalExtra(|e.data|);
    } else {
      NoExtra(|e.data|);
    }
  }

  lemma NoExtra(size: nat)
    ensures ParseZip64(LocalExtra(size, false)) == Err(Zip64Missing)
  {
  }

  lemma DescriptorFits(e: Entry, zip64: bool)
    requires Written(e) && (!zip64 ==> |e.data| <= MAX_U32)
    ensures Fit([Crc32.Of(e.data), |e.data|, |e.data|], DescriptorWidths(zip64))
    ensures Value(LE(DESCRIPTOR_SIG, 4)) == DESCRIPTOR_SIG
  {
    hide Crc32.Of;
    Widths();
    Crc32.OfBound(e.data);
    ValueOfLE(DESCRIPTOR_SIG, 4);
  }

  lemma DescriptorRoundTrip(e: Entry, zip64: bool, tail: seq<u8>)
    requires Written(e) && (!zip64 ==> |e.data| <= MAX_U32)
    ensures ParseDescriptor(Descriptor(e, zip64) + tail, zip64) ==
            Some(((Crc32.Of(e.data), |e.data|, |e.data|), tail))
  {
    var vals, widths := [Crc32.Of(e.data), |e.data|, |e.data|], DescriptorWidths(zip64);
    DescriptorFits(e, zip64);
    FieldsRoundTrip(vals, widths, tail);
    hide Fields;
    hide ReadFields;
    hide Crc32.Of;
    hide LE;
    hide Value;
    hide Fit;
    hide Written;
    hide DescriptorWidths;
    Front(LE(DESCRIPTOR_SIG, 4), Fields(vals, widths), tail);
  }

  /** The tree with the file of `e` added below its directories. */
  function AddFile(t: Tree, e: Entry): Tree
    requires Written(e)
  {
    var p := PathOf(e);
    Tree(t.files[p := e.data], t.dirs + Prefixes(p[..if |p| == 0 then 0 else |p| - 1]))
  }

  /** The file of `e` can be created in `t`. */
  predicate HasRoom(t: Tree, e: Entry)
    requires Written(e)
  {
    && PathOf(e) != [] && Usable(PathOf(e)) && PathOf(e) !in t.dirs
    && forall q :: q in Prefixes(PathOf(e)) ==> q !in t.files
  }

  lemma MakesFile(t: Tree, e: Entry)
    requires Written(e) && HasRoom(t, e)
    ensures var p := PathOf(e);
            MakeFile(t, p) == Some(AddFile(t, e).(files := t.files[p := []]))
  {
    var p := PathOf(e);
    var parent := p[..|p| - 1];
    forall q | q in Prefixes(parent)
      ensures q in Prefixes(p) && q != p
    {
      var k :| 0 <= k <= |parent| && q == parent[..k];
      assert q == p[..k];
    }
  }

  lemma BodyRoundTrip(e: Entry, zip64: bool, t: Tree, p: Path, tail: seq<u8>)
    requires Written(e) && (!zip64 ==> |e.data| <= MAX_U32)
    ensures ReadBody(Header(e.name, FLAGS, 0, zip64, |e.data|, |e.data|), p,
                     e.data + (Descriptor(e, zip64) + tail), t)
            == Next(t.(files := t.files[p := e.data]), tail)
  {
    var s := e.data + (Descriptor(e, zip64) + tail);
    DescriptorRoundTrip(e, zip64, tail);
    hide Descriptor;
    hide ParseDescriptor;
    hide Crc32.Of;
    assert s[..|e.data|] == e.data;
    assert s[|e.data|..] == Descriptor(e, zip64) + tail;
  }

  lemma LocalStep(s: seq<u8>, t: Tree)
    ensures ReadStep(LE(LOCAL_SIG, 4) + s, t) == ReadEntry(s, t)
  {
    Widths();
    ValueOfLE(LOCAL_SIG, 4);
    hide ReadEntry;
    var x := LE(LOCAL_SIG, 4) + s;
    assert x[..4] == LE(LOCAL_SIG, 4) && x[4..] == s;
  }

  lemma ReadEntryRoundTrip(e: Entry, offset: nat, t: Tree, tail: seq<u8>)
    requires Written(e) && HasRoom(t, e)
    ensures var zip64 := NeedsZip64(|e.data|, offset);
            ReadEntry(Fields(LocalFields(|e.name|, |e.data|, zip64), LOCAL_WIDTHS)
                      + (e.name + (LocalExtra(|e.data|, zip64) + (e.data + (Descriptor(e, zip64) + tail)))), t)
            == if Ambiguous(e, offset) then Halt(Failed(t, Zip64Missing)) else Next(AddFile(t, e), tail)
  {
    hide Fields;
    hide ParseHeader;
    hide ReadBody;
    hide MakeFile;
    hide Descriptor;
    hide LocalExtra;
    hide Crc32.Of;
    var zip64 := NeedsZip64(|e.data|, offset);
    var made := AddFile(t, e).(files := t.files[PathOf(e) := []]);
    HeaderRoundTrip(e, offset, e.data + (Descriptor(e, zip64) + tail));
    BodyRoundTrip(e, zip64, made, PathOf(e), tail);
    MakesFile(t, e);
    assert t.files[PathOf(e) := []][PathOf(e) := e.data] == t.files[PathOf(e) := e.data];
  }

  lemma EntryLayout(e: Entry, offset: nat)
    ensures var zip64 := NeedsZip64(|e.data|, offset);
            EntryBytes(e, offset) ==
            LE(LOCAL_SIG, 4) + Fields(LocalFields(|e.name|, |e.data|, zip64), LOCAL_WIDTHS)
            + e.name + LocalExtra(|e.data|, zip64) + e.data + Descriptor(e, zip64)
  {
    hide Fields;
    hide LE;
    hide Descriptor;
    hide LocalExtra;
    hide LocalFields;
  }

  /** One entry: read back in full, or refused when ambiguous. */
  lemma EntryRoundTrip(e: Entry, offset: nat, t: Tree, tail: seq<u8>)
    requires Written(e) && HasRoom(t, e)
    ensures ReadStep(EntryBytes(e, offset) + tail, t) ==
            if Ambiguous(e, offset) then Halt(Failed(t, Zip64Missing)) else Next(AddFile(t, e), tail)
  {
    var sig := LE(LOCAL_SIG, 4);
    hide *;
    EntryLayout(e, offset);
    var zip64 := NeedsZip64(|e.data|, offset);
    var f := Fields(LocalFields(|e.name|, |e.data|, zip64), LOCAL_WIDTHS);
    var extra := LocalExtra(|e.data|, zip64);
    EntryPieces(sig, f, e.name, extra, e.data, Descriptor(e, zip64), tail);
    LocalStep(f + (e.name + (extra + (e.data + (Descriptor(e, zip64) + tail)))), t);
    ReadEntryRoundTrip(e, offset, t, tail);
  }

  lemma EntryPieces(sig: seq<u8>, f: seq<u8>, name: seq<u8>, extra: seq<u8>, data: seq<u8>,
                    closing: seq<u8>, tail: seq<u8>)
    ensures (sig + f + name + extra + data + closing) + tail
            == sig + (f + (name + (extra + (data + (closing + tail)))))
  {
  }
}

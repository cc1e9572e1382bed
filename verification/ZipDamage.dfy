/** Damaged archives: data or recorded sizes that are not what the writer wrote. */
module ZipDamage {
  import opened Wrappers
  import opened Bytes
  import opened ZipFormat
  import opened ZipPath
  import opened Dest
  import opened ZipReader
  import opened ZipWriter
  import opened ZipRoundTrip
  import opened ZipTheorems
  import Crc32

  /** The entry with other data of the same length, but what is recorded of the old ones. */
  function Damaged(e: Entry, d: seq<u8>, offset: nat): seq<u8> {
    var zip64 := NeedsZip64(|e.data|, offset);
    LocalHeader(e, zip64) + d + Descriptor(e, zip64)
  }

  lemma DamagedBody(e: Entry, zip64: bool, d: seq<u8>, t: Tree, p: Path, tail: seq<u8>)
    requires Written(e) && (!zip64 ==> |e.data| <= MAX_U32) && |d| == |e.data|
    ensures ReadBody(ZipReader.Header(e.name, FLAGS, 0, zip64, |d|, |d|), p, d + (Descriptor(e, zip64) + tail), t)
            == var filled := t.(files := t.files[p := d]);
               if Crc32.Of(d) == Crc32.Of(e.data) then Next(filled, tail) else Halt(Failed(filled, CrcMismatch))
  {
    var s := d + (Descriptor(e, zip64) + tail);
    DescriptorRoundTrip(e, zip64, tail);
    hide Descriptor;
    hide ParseDescriptor;
    hide Crc32.Of;
    assert s[..|d|] == d && s[|d|..] == Descriptor(e, zip64) + tail;
  }

  lemma OtherData(e: Entry, d: seq<u8>, t: Tree)
    requires Written(e) && HasRoom(t, e) && |d| == |e.data|
    ensures var f := Entry(e.name, d);
            && Written(f) && HasRoom(t, f) && PathOf(f) == PathOf(e)
            && AddFile(t, f).dirs == AddFile(t, e).dirs
            && AddFile(t, f).files == t.files[PathOf(e) := d]
  {
  }

  lemma DamagedRead(e: Entry, offset: nat, d: seq<u8>, t: Tree, tail: seq<u8>)
    requires Written(e) && HasRoom(t, e) && !Ambiguous(e, offset) && |d| == |e.data| && Written(Entry(e.name, d))
    ensures var zip64 := NeedsZip64(|e.data|, offset);
            ReadEntry(Fields(LocalFields(|e.name|, |e.data|, zip64), LOCAL_WIDTHS)
                      + (e.name + (LocalExtra(|e.data|, zip64) + (d + (Descriptor(e, zip64) + tail)))), t)
            == var filled := AddFile(t, Entry(e.name, d));
               if Crc32.Of(d) == Crc32.Of(e.data) then Next(filled, tail) else Halt(Failed(filled, CrcMismatch))
  {
    hide Fields;
    hide ParseHeader;
    hide ReadBody;
    hide MakeFile;
    hide Descriptor;
    hide LocalExtra;
    hide Crc32.Of;
    var zip64, f := NeedsZip64(|e.data|, offset), Entry(e.name, d);
    OtherData(e, d, t);
    var made := AddFile(t, f).(files := t.files[PathOf(f) := []]);
    HeaderRoundTrip(f, offset, d + (Descriptor(e, zip64) + tail));
    DamagedBody(e, zip64, d, made, PathOf(f), tail);
    MakesFile(t, f);
    assert t.files[PathOf(f) := []][PathOf(f) := d] == t.files[PathOf(f) := d];
  }

  /** The reader notices other data of the same length exactly when their checksum is another. */
  lemma DamagedEntry(e: Entry, offset: nat, d: seq<u8>, t: Tree, tail: seq<u8>)
    requires Written(e) && HasRoom(t, e) && !Ambiguous(e, offset) && |d| == |e.data|
    ensures Written(Entry(e.name, d))
    ensures ReadStep(Damaged(e, d, offset) + tail, t) ==
            var filled := AddFile(t, Entry(e.name, d));
            if Crc32.Of(d) == Crc32.Of(e.data) then Next(filled, tail) else Halt(Failed(filled, CrcMismatch))
  {
    OtherData(e, d, t);
    var zip64 := NeedsZip64(|e.data|, offset);
    var sig, f := LE(LOCAL_SIG, 4), Fields(LocalFields(|e.name|, |e.data|, zip64), LOCAL_WIDTHS);
    var extra := LocalExtra(|e.data|, zip64);
    assert Damaged(e, d, offset) == sig + f + e.name + extra + d + Descriptor(e, zip64);
    hide *;
    EntryPieces(sig, f, e.name, extra, d, Descriptor(e, zip64), tail);
    LocalStep(f + (e.name + (extra + (d + (Descriptor(e, zip64) + tail)))), t);
    DamagedRead(e, offset, d, t, tail);
  }

  // ---- Recorded sizes ----

  /** A descriptor with the right checksum and other sizes. */
  function Forged(e: Entry, zip64: bool, csize: nat, usize: nat): seq<u8> {
    LE(DESCRIPTOR_SIG, 4) + Fields([Crc32.Of(e.data), csize, usize], DescriptorWidths(zip64))
  }

  lemma ForgedReads(e: Entry, zip64: bool, csize: nat, usize: nat, tail: seq<u8>)
    requires csize < Pow256(if zip64 then 8 else 4) && usize < Pow256(if zip64 then 8 else 4)
    ensures ParseDescriptor(Forged(e, zip64, csize, usize) + tail, zip64) ==
            Some(((Crc32.Of(e.data), csize, usize), tail))
  {
    var vals, widths := [Crc32.Of(e.data), csize, usize], DescriptorWidths(zip64);
    ForgedFits(e, zip64, csize, usize);
    hide Fields;
    hide ReadFields;
    hide Crc32.Of;
    hide LE;
    hide Value;
    hide Fit;
    hide Pow256;
    hide DescriptorWidths;
    FieldsRoundTrip(vals, widths, tail);
    Front(LE(DESCRIPTOR_SIG, 4), Fields(vals, widths), tail);
  }

  lemma ForgedFits(e: Entry, zip64: bool, csize: nat, usize: nat)
    requires csize < Pow256(if zip64 then 8 else 4) && usize < Pow256(if zip64 then 8 else 4)
    ensures Fit([Crc32.Of(e.data), csize, usize], DescriptorWidths(zip64))
    ensures Value(LE(DESCRIPTOR_SIG, 4)) == DESCRIPTOR_SIG
  {
    Crc32.OfBound(e.data);
    Widths();
    ValueOfLE(DESCRIPTOR_SIG, 4);
    hide Crc32.Of;
    hide LE;
    hide Value;
  }

  lemma ForgedBody(e: Entry, zip64: bool, csize: nat, usize: nat, t: Tree, p: Path, tail: seq<u8>)
    requires csize < Pow256(if zip64 then 8 else 4) && usize < Pow256(if zip64 then 8 else 4)
    ensures ReadBody(ZipReader.Header(e.name, FLAGS, 0, zip64, |e.data|, |e.data|), p,
                     e.data + (Forged(e, zip64, csize, usize) + tail), t)
            == var filled := t.(files := t.files[p := e.data]);
               if csize == usize == |e.data| then Next(filled, tail) else Halt(Failed(filled, SizeMismatch))
  {
    var s := e.data + (Forged(e, zip64, csize, usize) + tail);
    ForgedReads(e, zip64, csize, usize, tail);
    hide Forged;
    hide ParseDescriptor;
    hide Crc32.Of;
    assert s[..|e.data|] == e.data && s[|e.data|..] == Forged(e, zip64, csize, usize) + tail;
  }

  lemma ForgedRead(e: Entry, offset: nat, csize: nat, usize: nat, t: Tree, tail: seq<u8>)
    requires Written(e) && HasRoom(t, e) && !Ambiguous(e, offset)
    requires var zip64 := NeedsZip64(|e.data|, offset);
             csize < Pow256(if zip64 then 8 else 4) && usize < Pow256(if zip64 then 8 else 4)
    ensures var zip64 := NeedsZip64(|e.data|, offset);
            ReadEntry(Fields(LocalFields(|e.name|, |e.data|, zip64), LOCAL_WIDTHS)
                      + (e.name + (LocalExtra(|e.data|, zip64)
                                   + (e.data + (Forged(e, zip64, csize, usize) + tail)))), t)
            == if csize == usize == |e.data| then Next(AddFile(t, e), tail)
               else Halt(Failed(AddFile(t, e), SizeMismatch))
  {
    hide Fields;
    hide ParseHeader;
    hide ReadBody;
    hide MakeFile;
    hide Forged;
    hide LocalExtra;
    hide Crc32.Of;
    hide Pow256;
    var zip64 := NeedsZip64(|e.data|, offset);
    var made := AddFile(t, e).(files := t.files[PathOf(e) := []]);
    HeaderRoundTrip(e, offset, e.data + (Forged(e, zip64, csize, usize) + tail));
    ForgedBody(e, zip64, csize, usize, made, PathOf(e), tail);
    MakesFile(t, e);
    assert t.files[PathOf(e) := []][PathOf(e) := e.data] == t.files[PathOf(e) := e.data];
  }

  /** The reader notices a size that is not the one in the header. */
  lemma ForgedEntry(e: Entry, offset: nat, csize: nat, usize: nat, t: Tree, tail: seq<u8>)
    requires Written(e) && HasRoom(t, e) && !Ambiguous(e, offset)
    requires var zip64 := NeedsZip64(|e.data|, offset);
             csize < Pow256(if zip64 then 8 else 4) && usize < Pow256(if zip64 then 8 else 4)
    ensures var zip64 := NeedsZip64(|e.data|, offset);
            ReadStep((LocalHeader(e, zip64) + e.data + Forged(e, zip64, csize, usize)) + tail, t) ==
            if csize == usize == |e.data| then Next(AddFile(t, e), tail) else Halt(Failed(AddFile(t, e), SizeMismatch))
  {
    var zip64 := NeedsZip64(|e.data|, offset);
    var sig, f := LE(LOCAL_SIG, 4), Fields(LocalFields(|e.name|, |e.data|, zip64), LOCAL_WIDTHS);
    var extra, forged := LocalExtra(|e.data|, zip64), Forged(e, zip64, csize, usize);
    assert LocalHeader(e, zip64) + e.data + forged == sig + f + e.name + extra + e.data + forged;
    hide *;
    EntryPieces(sig, f, e.name, extra, e.data, forged, tail);
    LocalStep(f + (e.name + (extra + (e.data + (forged + tail)))), t);
    ForgedRead(e, offset, csize, usize, t, tail);
  }

  // ---- Whole archives ----

  /** Where the data of the `k`-th entry start. */
  function DataStart(es: seq<Entry>, k: nat): nat
    requires k < |es|
  {
    var at := |Entries(es[..k], 0)|;
    at + |LocalHeader(es[k], NeedsZip64(|es[k].data|, at))|
  }

  /** The archive around its `k`-th entry. */
  lemma EntryInside(es: seq<Entry>, k: nat) returns (rest: seq<u8>)
    requires k < |es|
    ensures var front := Entries(es[..k], 0); Archive(es) == front + (EntryBytes(es[k], |front|) + rest)
  {
    hide *;
    var front, e, tail := Entries(es[..k], 0), es[k], es[k + 1..];
    var after := |front| + |EntryBytes(e, |front|)|;
    Around(es, k);
    LayoutConcat(es[..k], [e] + tail, 0);
    LaidOut([e] + tail, |front|);
    rest := Entries(tail, after) + Trailer(es);
    ArchiveParts(es);
    Behind(front, EntryBytes(e, |front|), Entries(tail, after), Trailer(es));
  }

  lemma Around<T>(s: seq<T>, k: nat)
    requires k < |s|
    ensures s == s[..k] + ([s[k]] + s[k + 1..])
    ensures var t := [s[k]] + s[k + 1..]; t[0] == s[k] && t[1..] == s[k + 1..] && t != []
  {
  }

  lemma Behind(front: seq<u8>, b: seq<u8>, c: seq<u8>, d: seq<u8>)
    ensures front + (b + c) + d == front + (b + (c + d))
  {
  }

  /** The archive around the data of its `k`-th entry, with other data in their place. */
  lemma DataInside(es: seq<Entry>, k: nat, d: seq<u8>) returns (rest: seq<u8>)
    requires k < |es| && |d| == |es[k].data|
    ensures var a, at, front := Archive(es), DataStart(es, k), Entries(es[..k], 0);
            at + |d| <= |a| && a[..at] + d + a[at + |d|..] == front + (Damaged(es[k], d, |front|) + rest)
  {
    hide *;
    rest := EntryInside(es, k);
    var front, e := Entries(es[..k], 0), es[k];
    var zip64 := NeedsZip64(|e.data|, |front|);
    var h, c := LocalHeader(e, zip64), Descriptor(e, zip64);
    InPieces(e, d, |front|);
    StartOfData(es, k);
    Replaced(front, h, e.data, c, rest, d);
  }

  lemma InPieces(e: Entry, d: seq<u8>, offset: nat)
    ensures var zip64 := NeedsZip64(|e.data|, offset);
            && EntryBytes(e, offset) == LocalHeader(e, zip64) + e.data + Descriptor(e, zip64)
            && Damaged(e, d, offset) == LocalHeader(e, zip64) + d + Descriptor(e, zip64)
  {
  }

  lemma StartOfData(es: seq<Entry>, k: nat)
    requires k < |es|
    ensures var front := Entries(es[..k], 0);
            DataStart(es, k) == |front| + |LocalHeader(es[k], NeedsZip64(|es[k].data|, |front|))|
  {
  }

  lemma Replaced(front: seq<u8>, h: seq<u8>, data: seq<u8>, c: seq<u8>, rest: seq<u8>, d: seq<u8>)
    requires |d| == |data|
    ensures var s, i := front + ((h + data + c) + rest), |front| + |h|;
            && i + |d| <= |s|
            && s[..i] + d + s[i + |d|..] == front + ((h + d + c) + rest)
  {
    var s, i := front + ((h + data + c) + rest), |front| + |h|;
    assert s == (front + h) + data + (c + rest);
    assert s[..i] == front + h && s[i + |d|..] == c + rest;
    Regrouped(front, h, d, c, rest);
  }

  /** Extraction of such an archive, on entries. */
  lemma DamagedExtract(es: seq<Entry>, k: nat, d: seq<u8>)
    requires AllWritten(es) && Fits(EMPTY, es) && Unambiguous(es, 0) && k < |es|
    requires |d| == |es[k].data| && Crc32.Of(d) != Crc32.Of(es[k].data)
    ensures AllWritten(es[..k]) && Written(Entry(es[k].name, d)) && DataStart(es, k) + |d| <= |Archive(es)|
    ensures Extract(Archive(es)[..DataStart(es, k)] + d + Archive(es)[DataStart(es, k) + |d|..], EMPTY)
            == Failed(AddFile(AddFiles(EMPTY, es[..k]), Entry(es[k].name, d)), CrcMismatch)
  {
    hide *;
    var front, e := Entries(es[..k], 0), es[k];
    var rest := DataInside(es, k, d);
    UnambiguousAt(es, 0, k);
    FitsAt(EMPTY, es, k);
    ExtractBehind(es[..k], 0, EMPTY, Damaged(e, d, |front|) + rest);
    DamagedEntry(e, |front|, d, AddFiles(EMPTY, es[..k]), rest);
    ExtractUnfolds(Damaged(e, d, |front|) + rest, AddFiles(EMPTY, es[..k]));
  }

  /**
   * With `d` in place of the data of entry `k`, extraction stops behind it with a checksum error;
   * the damaged file is there, and the files before it are there undamaged.
   */
  ghost predicate DamageFound(files: seq<SourceFile>, es: seq<Entry>, k: nat, d: seq<u8>)
    requires k < |es| == |files|
  {
    var a, at := Archive(es), DataStart(es, k);
    && at + |d| <= |a|
    && var outcome := Extract(a[..at] + d + a[at + |d|..], EMPTY);
       && outcome.Failed? && outcome.error == CrcMismatch
       && Normals(files[k].rel) in outcome.tree.files && outcome.tree.files[Normals(files[k].rel)] == d
       && forall i :: 0 <= i < k ==>
            && Normals(files[i].rel) in outcome.tree.files
            && outcome.tree.files[Normals(files[i].rel)] == es[i].data
  }

  /**
   * An archive in which the data of one file are replaced by others of the same length with
   * another checksum: extraction fails with that error, the files before it restored.
   */
  lemma DamagedArchive(files: seq<SourceFile>, k: nat, d: seq<u8>)
    requires ToEntries(files).Ok? && TreeLike(files) && Unambiguous(ToEntries(files).value, 0)
    requires k < |files|
    requires var e := ToEntries(files).value[k]; |d| == |e.data| && Crc32.Of(d) != Crc32.Of(e.data)
    ensures DamageFound(files, ToEntries(files).value, k, d)
  {
    hide Extract;
    hide Archive;
    hide DataStart;
    hide ToEntries;
    hide ToEntry;
    hide Normals;
    hide TreeLike;
    hide Unambiguous;
    hide Crc32.Of;
    hide AddFile;
    hide AddFiles;
    hide AllWritten;
    hide Written;
    hide Fits;
    hide HoldsExactly;
    hide PathOf;
    var es := ToEntries(files).value;
    EntriesOfFiles(files);
    EntriesFit(files);
    DamagedExtract(es, k, d);
    FirstEntries(files, k);
    FirstTreeLike(files, k);
    RestoredFiles(files[..k]);
    StillThere(files, es, k, AddFiles(EMPTY, es[..k]), d);
  }

  lemma Regrouped(front: seq<u8>, h: seq<u8>, d: seq<u8>, c: seq<u8>, rest: seq<u8>)
    ensures (front + h) + d + (c + rest) == front + ((h + d + c) + rest)
  {
  }

  lemma {:induction false} UnambiguousAt(es: seq<Entry>, offset: nat, k: nat)
    requires k < |es| && Unambiguous(es, offset)
    ensures Unambiguous(es[..k], offset) && !Ambiguous(es[k], offset + |Entries(es[..k], offset)|)
    decreases k
  {
    hide EntryBytes;
    hide Ambiguous;
    if k > 0 {
      UnambiguousAt(es[1..], offset + |EntryBytes(es[0], offset)|, k - 1);
      assert es[..k][1..] == es[1..][..k - 1];
    }
  }

  lemma FitsPrefix(t: Tree, es: seq<Entry>, k: nat)
    requires k <= |es| && AllWritten(es) && Fits(t, es)
    ensures AllWritten(es[..k]) && Fits(t, es[..k])
  {
    assert forall i :: 0 <= i < k ==> es[..k][i] == es[i];
    hide Written;
    hide HasRoom;
    hide PathOf;
  }

  /** The entries before the `k`-th leave room for it. */
  lemma {:induction false} FitsAt(t: Tree, es: seq<Entry>, k: nat)
    requires k < |es| && AllWritten(es) && Fits(t, es)
    ensures AllWritten(es[..k]) && Fits(t, es[..k]) && Written(es[k]) && HasRoom(AddFiles(t, es[..k]), es[k])
    decreases k
  {
    FitsPrefix(t, es, k);
    hide Written;
    hide HasRoom;
    hide PathOf;
    hide PrefixFree;
    if k > 0 {
      FitsNext(t, es);
      hide Fits;
      FitsAt(AddFile(t, es[0]), es[1..], k - 1);
      assert es[..k][1..] == es[1..][..k - 1];
    }
  }

  lemma StillThere(files: seq<SourceFile>, es: seq<Entry>, k: nat, t: Tree, d: seq<u8>)
    requires k < |files| && |es| == |files| && TreeLike(files) && HoldsExactly(t, files[..k]) && AllWritten(es)
    requires forall i :: 0 <= i < |files| ==>
               && PathOf(es[i]) == Normals(files[i].rel)
               && ToEntry(files[i]) == Ok(es[i])
    requires Written(Entry(es[k].name, d))
    ensures var u := AddFile(t, Entry(es[k].name, d));
            && Normals(files[k].rel) in u.files && u.files[Normals(files[k].rel)] == d
            && forall i :: 0 <= i < k ==>
                 Normals(files[i].rel) in u.files && u.files[Normals(files[i].rel)] == es[i].data
  {
    hide Normals;
    forall i | 0 <= i < k
      ensures Normals(files[i].rel) in t.files && t.files[Normals(files[i].rel)] == es[i].data
      ensures Normals(files[i].rel) != Normals(files[k].rel)
    {
      assert files[..k][i] == files[i];
    }
  }
}

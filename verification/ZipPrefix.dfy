/**
 * Archives cannot be mistaken for one another: what `write_zip` emits has no archive as a
 * proper prefix, and an archive tells its entries.
 */
module ZipPrefix {
  import opened Wrappers
  import opened Bytes
  import opened ZipFormat
  import opened ZipPath
  import opened ZipWriter
  import opened ZipRoundTrip
  import opened ZipTheorems

  const TOO_LARGE := 0x1_0000_0000_0000_0000

  // ---- Headers ----

  function Header(name: seq<u8>, size: nat, zip64: bool): seq<u8> {
    HeaderStart(size, zip64) + HeaderEnd(name, size, zip64)
  }

  lemma LocalFieldsFit(nameLen: nat, size: nat, offset: nat)
    requires nameLen <= MAX_U16
    ensures Fit(LocalFields(nameLen, size, NeedsZip64(size, offset)), LOCAL_WIDTHS)
  {
    Widths();
  }

  /** The fields that stand in input that begins with a header. */
  lemma HeaderFields(name: seq<u8>, size: nat, offset: nat, x: seq<u8>)
    requires |name| <= MAX_U16
    requires Header(name, size, NeedsZip64(size, offset)) <= x
    ensures var zip64 := NeedsZip64(size, offset);
            && |x| >= 30 && x[..4] == LE(LOCAL_SIG, 4)
            && ReadFields(x[4..], LOCAL_WIDTHS) == Some((LocalFields(|name|, size, zip64), x[30..]))
            && name + LocalExtra(size, zip64) <= x[30..]
  {
    var zip64 := NeedsZip64(size, offset);
    var f, extra := Fields(LocalFields(|name|, size, zip64), LOCAL_WIDTHS), LocalExtra(size, zip64);
    HeaderParts(name, size, zip64);
    WidthSums();
    FieldsLength(LocalFields(|name|, size, zip64), LOCAL_WIDTHS);
    LocalFieldsFit(|name|, size, offset);
    var rest := x[|Header(name, size, zip64)|..];
    FieldsRoundTrip(LocalFields(|name|, size, zip64), LOCAL_WIDTHS, name + extra + rest);
    var sig := LE(LOCAL_SIG, 4);
    assert x == Header(name, size, zip64) + rest;
    hide *;
    HeaderPieces(sig, f, name, extra, rest, x);
  }

  lemma HeaderPieces(sig: seq<u8>, f: seq<u8>, name: seq<u8>, extra: seq<u8>, rest: seq<u8>, x: seq<u8>)
    requires |sig| == 4 && |f| == 26 && x == sig + f + name + extra + rest
    ensures x[..4] == sig && x[4..] == f + (name + extra + rest) && x[30..] == name + extra + rest
    ensures name + extra <= x[30..]
  {
  }

  /** Input that begins with two headers begins with one: they have the same name and size. */
  lemma SameHeader(name: seq<u8>, size: nat, name2: seq<u8>, size2: nat, offset: nat, x: seq<u8>)
    requires |name| <= MAX_U16 && |name2| <= MAX_U16 && size < TOO_LARGE && size2 < TOO_LARGE
    requires Header(name, size, NeedsZip64(size, offset)) <= x
    requires Header(name2, size2, NeedsZip64(size2, offset)) <= x
    ensures name == name2 && size == size2
  {
    var zip64, zip642 := NeedsZip64(size, offset), NeedsZip64(size2, offset);
    HeaderFields(name, size, offset, x);
    HeaderFields(name2, size2, offset, x);
    hide Header;
    hide ReadFields;
    var f, g := LocalFields(|name|, size, zip64), LocalFields(|name2|, size2, zip642);
    assert f == g;
    assert f[8] == g[8] && f[9] == g[9] && f[6] == g[6];
    assert zip64 == zip642;
    ExtraLengths(size, offset, zip64);
    ExtraLengths(size2, offset, zip64);
    hide LocalExtra;
    SameParts(name, LocalExtra(size, zip64), name2, LocalExtra(size2, zip64), x[30..]);
    if zip64 {
      SameExtra(size, size2);
    }
  }

  lemma SameParts(a: seq<u8>, b: seq<u8>, c: seq<u8>, d: seq<u8>, x: seq<u8>)
    requires a + b <= x && c + d <= x && |a| == |c| && |b| == |d|
    ensures a == c && b == d
  {
    assert (a + b)[..|a|] == a && (c + d)[..|c|] == c;
    assert (a + b)[|a|..] == b && (c + d)[|c|..] == d;
  }

  lemma SameExtra(size: nat, size2: nat)
    requires size < TOO_LARGE && size2 < TOO_LARGE && LocalExtra(size, true) == LocalExtra(size2, true)
    ensures size == size2
  {
    LocalExtraLayout(size);
    LocalExtraLayout(size2);
    Widths();
    ValueOfLE(size, 8);
    ValueOfLE(size2, 8);
    hide LE;
    hide Value;
    hide LocalExtra;
  }

  // ---- Entries ----

  lemma EntryHeader(e: Entry, offset: nat)
    ensures var zip64 := NeedsZip64(|e.data|, offset);
            EntryBytes(e, offset) == Header(e.name, |e.data|, zip64) + e.data + Descriptor(e, zip64)
  {
    EntryLayout(e, offset);
    HeaderParts(e.name, |e.data|, NeedsZip64(|e.data|, offset));
  }

  lemma EntryStarts(e: Entry, offset: nat, x: seq<u8>)
    requires EntryBytes(e, offset) <= x
    ensures var h := Header(e.name, |e.data|, NeedsZip64(|e.data|, offset));
            h <= x && |x| > |h| + |e.data| && x[|h|..|h| + |e.data|] == e.data
  {
    EntryHeader(e, offset);
    var zip64 := NeedsZip64(|e.data|, offset);
    DescriptorLength(e, zip64);
    hide *;
    MiddleOf(Header(e.name, |e.data|, zip64), e.data, Descriptor(e, zip64), x);
  }

  lemma MiddleOf(a: seq<u8>, b: seq<u8>, c: seq<u8>, x: seq<u8>)
    requires a + b + c <= x && c != []
    ensures a <= x && |x| > |a| + |b| && x[|a|..|a| + |b|] == b
  {
    assert x == a + b + c + x[|a + b + c|..];
  }

  /** Input that begins with two entries begins with one. */
  lemma SameEntry(e: Entry, e2: Entry, offset: nat, x: seq<u8>)
    requires Written(e) && Written(e2)
    requires EntryBytes(e, offset) <= x && EntryBytes(e2, offset) <= x
    ensures e == e2
  {
    hide EntryBytes;
    hide Header;
    EntryStarts(e, offset, x);
    EntryStarts(e2, offset, x);
    SameHeader(e.name, |e.data|, e2.name, |e2.data|, offset, x);
  }

  /** What a failing file leaves is shorter than any entry that could begin like it. */
  lemma PartialIsNoEntry(f: SourceFile, e: Entry, offset: nat)
    requires ToEntry(f).Err? && Written(e)
    ensures !(EntryBytes(e, offset) <= Partial(f, offset))
  {
    if EntryBytes(e, offset) <= Partial(f, offset) {
      EntryStarts(e, offset, Partial(f, offset));
      EntryLength(e, offset);
      StartLength(f.size, NeedsZip64(f.size, offset));
      hide EntryBytes;
      PartialHeader(f, e, offset);
    }
  }

  lemma StartLength(size: nat, zip64: bool)
    ensures |HeaderStart(size, zip64)| == 26
  {
    var v := [VERSION, FLAGS, STORED, 0, 0, 0, SizeField(size, zip64), SizeField(size, zip64)];
    FieldsLength(v, START_WIDTHS);
    assert Sum(START_WIDTHS, 4) == 14;
    hide Fields;
    hide LE;
  }

  /** A failing file whose whole header is out has less data behind it than the header says. */
  lemma PartialHeader(f: SourceFile, e: Entry, offset: nat)
    requires ToEntry(f).Err? && Written(e)
    requires var x, h := Partial(f, offset), Header(e.name, |e.data|, NeedsZip64(|e.data|, offset));
             h <= x && |x| > |h| + |e.data|
    ensures |Partial(f, offset)| == 26
  {
    var name := ZipName(f.rel);
    StartLength(f.size, NeedsZip64(f.size, offset));
    hide HeaderStart;
    hide HeaderEnd;
    hide Written;
    if name.Ok? && |name.value| <= MAX_U16 {
      var h := Header(name.value, f.size, NeedsZip64(f.size, offset));
      assert h <= Partial(f, offset);
      SizesBound(f, e);
      SameHeader(name.value, f.size, e.name, |e.data|, offset, Partial(f, offset));
    }
  }

  lemma SizesBound(f: SourceFile, e: Entry)
    requires Written(e)
    ensures f.size < TOO_LARGE && |e.data| < TOO_LARGE && |e.name| <= MAX_U16
  {
  }

  // ---- Signatures ----

  /** `x` starts like a local header, or it starts like the trailer; it cannot do both. */
  predicate StartsLocal(x: seq<u8>) { |x| >= 4 && Value(x[..4]) == LOCAL_SIG }

  lemma EntryIsLocal(e: Entry, offset: nat, x: seq<u8>)
    requires |e.name| <= MAX_U16 && EntryBytes(e, offset) <= x
    ensures StartsLocal(x)
  {
    EntryStarts(e, offset, x);
    HeaderFields(e.name, |e.data|, offset, x);
    Widths();
    ValueOfLE(LOCAL_SIG, 4);
    hide *;
  }

  lemma PartialIsLocal(f: SourceFile, offset: nat)
    requires ToEntry(f).Err?
    ensures Partial(f, offset) == [] || StartsLocal(Partial(f, offset))
  {
    Widths();
    ValueOfLE(LOCAL_SIG, 4);
    var start := HeaderStart(f.size, NeedsZip64(f.size, offset));
    assert start[..4] == LE(LOCAL_SIG, 4);
    hide Value;
    hide HeaderStart;
    hide HeaderEnd;
    var x := Partial(f, offset);
    if x != [] {
      assert x[..4] == start[..4];
    }
  }

  lemma NotBoth(x: seq<u8>)
    ensures !(StartsLocal(x) && StartsTrailer(x))
  {
    hide Value;
  }

  lemma TrailerFirst(tail: seq<u8>, x: seq<u8>)
    requires StartsTrailer(tail) && tail <= x
    ensures StartsTrailer(x)
  {
    assert x[..4] == tail[..4];
  }

  // ---- Emissions ----

  /** How an emission begins: with a whole entry, with what a failing file left, or not at all. */
  lemma EmittedStarts(files: seq<SourceFile>, offset: nat, tail: seq<u8>)
    requires files != []
    ensures ToEntry(files[0]).Ok? ==>
              var b := EntryBytes(ToEntry(files[0]).value, offset);
              EmittedFrom(files, offset) + tail == b + (EmittedFrom(files[1..], offset + |b|) + tail)
    ensures ToEntry(files[0]).Err? && tail == [] ==> EmittedFrom(files, offset) + tail == Partial(files[0], offset)
  {
    hide EntryBytes;
    hide Partial;
    hide ToEntry;
  }

  lemma ToEntriesFirst(files: seq<SourceFile>)
    requires files != []
    ensures ToEntry(files[0]).Err? ==> ToEntries(files) == Err(ToEntry(files[0]).error)
    ensures ToEntry(files[0]).Ok? ==>
              ToEntries(files) == match ToEntries(files[1..])
                                  case Err(e) => Err(e)
                                  case Ok(rest) => Ok([ToEntry(files[0]).value] + rest)
  {
    hide ToEntry;
  }

  lemma EntryWritten(f: SourceFile)
    requires ToEntry(f).Ok?
    ensures Written(ToEntry(f).value)
  {
    assert ToEntries([f][1..]) == Ok([]);
    EntriesOfFiles([f]);
  }

  /** Files whose emission begins with nothing but a trailer are none. */
  lemma OnlyTrailer(files: seq<SourceFile>, offset: nat, tail: seq<u8>, tail2: seq<u8>)
    requires StartsTrailer(tail) && tail <= EmittedFrom(files, offset) + tail2
    requires ToEntries(files).Err? ==> tail2 == []
    ensures files == []
  {
    var x := EmittedFrom(files, offset) + tail2;
    hide *;
    TrailerFirst(tail, x);
    NotBoth(x);
    if files != [] {
      EmittedStarts(files, offset, tail2);
      ToEntriesFirst(files);
      if ToEntry(files[0]).Ok? {
        EntryWritten(files[0]);
        BoundedName(ToEntry(files[0]).value);
        EntryIsLocal(ToEntry(files[0]).value, offset, x);
      } else {
        PartialIsLocal(files[0], offset);
        TrailerLength(x);
      }
    }
  }

  lemma BoundedName(e: Entry)
    requires Written(e)
    ensures |e.name| <= MAX_U16
  {
  }

  lemma TrailerLength(x: seq<u8>)
    requires StartsTrailer(x)
    ensures x != []
  {
  }

  /** `tail` behind the entries is the beginning of the emission with `tail2` behind it. */
  predicate Begins(es: seq<Entry>, tail: seq<u8>, files: seq<SourceFile>, tail2: seq<u8>, offset: nat) {
    Entries(es, offset) + tail <= EmittedFrom(files, offset) + tail2
  }

  /** A trailer is behind the entries; and behind the emission, or nothing after a failure. */
  predicate Ends(tail: seq<u8>, files: seq<SourceFile>, tail2: seq<u8>) {
    StartsTrailer(tail) && (tail2 == [] || StartsTrailer(tail2)) && (ToEntries(files).Err? ==> tail2 == [])
  }

  /** When entries are the beginning of an emission, the first entry is the first file's. */
  lemma FirstEntry(es: seq<Entry>, tail: seq<u8>, files: seq<SourceFile>, tail2: seq<u8>, offset: nat)
    requires es != [] && AllWritten(es) && Ends(tail, files, tail2) && Begins(es, tail, files, tail2, offset)
    ensures files != [] && ToEntry(files[0]) == Ok(es[0])
  {
    hide *;
    FirstWritten(es);
    EndsMeans(tail, files, tail2);
    BeginsFirst(es, tail, files, tail2, offset);
    FilesFollow(es[0], files, offset, tail2);
  }

  /** And so on behind it. */
  lemma NextEntries(es: seq<Entry>, tail: seq<u8>, files: seq<SourceFile>, tail2: seq<u8>, offset: nat)
    requires es != [] && files != [] && ToEntry(files[0]) == Ok(es[0])
    requires Ends(tail, files, tail2) && Begins(es, tail, files, tail2, offset)
    ensures Begins(es[1..], tail, files[1..], tail2, offset + |EntryBytes(es[0], offset)|)
    ensures Ends(tail, files[1..], tail2)
  {
    hide *;
    EndsMeans(tail, files, tail2);
    EndsMeans(tail, files[1..], tail2);
    ToEntriesFirst(files);
    BeginsFirst(es, tail, files, tail2, offset);
    EmittedStarts(files, offset, tail2);
    var next := offset + |EntryBytes(es[0], offset)|;
    Stripped(EntryBytes(es[0], offset), Entries(es[1..], next) + tail, EmittedFrom(files[1..], next) + tail2);
    BeginsMeans(es[1..], tail, files[1..], tail2, next);
  }

  lemma BeginsMeans(es: seq<Entry>, tail: seq<u8>, files: seq<SourceFile>, tail2: seq<u8>, offset: nat)
    ensures Begins(es, tail, files, tail2, offset)
            <==> Entries(es, offset) + tail <= EmittedFrom(files, offset) + tail2
  {
  }

  lemma BeginsFirst(es: seq<Entry>, tail: seq<u8>, files: seq<SourceFile>, tail2: seq<u8>, offset: nat)
    requires es != [] && Begins(es, tail, files, tail2, offset)
    ensures var b := EntryBytes(es[0], offset);
            && b + (Entries(es[1..], offset + |b|) + tail) <= EmittedFrom(files, offset) + tail2
            && b <= EmittedFrom(files, offset) + tail2
  {
    hide *;
    BeginsMeans(es, tail, files, tail2, offset);
    EntriesFirst(es, offset, tail);
    var b := EntryBytes(es[0], offset);
    Beginning(b, Entries(es[1..], offset + |b|) + tail, EmittedFrom(files, offset) + tail2);
  }

  lemma EndsMeans(tail: seq<u8>, files: seq<SourceFile>, tail2: seq<u8>)
    ensures Ends(tail, files, tail2) <==>
              StartsTrailer(tail) && (tail2 == [] || StartsTrailer(tail2)) && (ToEntries(files).Err? ==> tail2 == [])
  {
  }

  lemma NoEntries(tail: seq<u8>, files: seq<SourceFile>, tail2: seq<u8>, offset: nat)
    requires Ends(tail, files, tail2) && Begins([], tail, files, tail2, offset)
    ensures ToEntries(files) == Ok([])
  {
    assert Entries([], offset) + tail == tail;
    hide EmittedFrom;
    hide StartsTrailer;
    OnlyTrailer(files, offset, tail, tail2);
  }

  /** An archive that is the beginning of an emission is one of exactly its files. */
  lemma {:induction false} SameEntries(es: seq<Entry>, tail: seq<u8>, files: seq<SourceFile>,
                                       tail2: seq<u8>, offset: nat)
    requires AllWritten(es) && Ends(tail, files, tail2) && Begins(es, tail, files, tail2, offset)
    ensures ToEntries(files) == Ok(es)
    decreases es
  {
    hide *;
    if es == [] {
      NoEntries(tail, files, tail2, offset);
    } else {
      RestWritten(es);
      FirstEntry(es, tail, files, tail2, offset);
      NextEntries(es, tail, files, tail2, offset);
      SameEntries(es[1..], tail, files[1..], tail2, offset + |EntryBytes(es[0], offset)|);
      ToEntriesFirst(files);
      assert es == [es[0]] + es[1..];
    }
  }

  lemma RestWritten(es: seq<Entry>)
    requires es != [] && AllWritten(es)
    ensures AllWritten(es[1..])
  {
    hide Written;
  }

  lemma Beginning(a: seq<u8>, b: seq<u8>, x: seq<u8>)
    requires a + b <= x
    ensures a <= x
  {
  }

  lemma Stripped(a: seq<u8>, b: seq<u8>, c: seq<u8>)
    requires a + b <= a + c
    ensures b <= c
  {
    assert (a + b)[|a|..] == b && (a + c)[|a|..] == c;
  }

  /** Files whose emission begins with an entry begin with its file. */
  lemma FilesFollow(e: Entry, files: seq<SourceFile>, offset: nat, tail2: seq<u8>)
    requires Written(e) && EntryBytes(e, offset) <= EmittedFrom(files, offset) + tail2
    requires tail2 == [] || StartsTrailer(tail2)
    requires ToEntries(files).Err? ==> tail2 == []
    ensures files != [] && ToEntry(files[0]) == Ok(e)
  {
    assert files == [] ==> EmittedFrom(files, offset) + tail2 == tail2;
    hide *;
    var x := EmittedFrom(files, offset) + tail2;
    BoundedName(e);
    EntryIsLocal(e, offset, x);
    NotBoth(x);
    LocalLength(x);
    if files != [] {
      EmittedStarts(files, offset, tail2);
      ToEntriesFirst(files);
      if ToEntry(files[0]).Ok? {
        var e2 := ToEntry(files[0]).value;
        EntryWritten(files[0]);
        SameEntry(e, e2, offset, x);
      } else {
        PartialIsNoEntry(files[0], e, offset);
      }
    }
  }

  lemma LocalLength(x: seq<u8>)
    requires StartsLocal(x)
    ensures x != []
  {
  }

  lemma {:induction false} EmittedEntries(files: seq<SourceFile>, offset: nat)
    requires ToEntries(files).Ok?
    ensures EmittedFrom(files, offset) == Entries(ToEntries(files).value, offset)
  {
    hide ToEntry;
    hide EntryBytes;
    if files != [] {
      var e := ToEntry(files[0]).value;
      EmittedEntries(files[1..], offset + |EntryBytes(e, offset)|);
      assert ToEntries(files).value[1..] == ToEntries(files[1..]).value;
    }
  }

  /** Everything emitted is what the entry loop emits, and the trailer when it succeeds. */
  lemma EmittedParts(files: seq<SourceFile>) returns (tail: seq<u8>)
    ensures Emitted(files) == EmittedFrom(files, 0) + tail
    ensures if ToEntries(files).Ok? then StartsTrailer(tail) else tail == []
  {
    hide ToEntries;
    hide EmittedFrom;
    hide Archive;
    hide StartsTrailer;
    if ToEntries(files).Ok? {
      var es := ToEntries(files).value;
      EmittedEntries(files, 0);
      ArchiveParts(es);
      TrailerStarts(es);
      tail := Trailer(es);
    } else {
      tail := [];
    }
  }

  /** An archive is the beginning of an emission only when that is all of it, for the same entries. */
  lemma ArchiveInEmission(files: seq<SourceFile>, other: seq<SourceFile>, n: nat)
    requires ToEntries(other).Ok? && n <= |Emitted(files)|
    requires Emitted(files)[..n] == Archive(ToEntries(other).value)
    ensures ToEntries(files) == ToEntries(other) && n == |Emitted(files)|
  {
    var es := ToEntries(other).value;
    EntriesOfFiles(other);
    assert ToEntries(files) == ToEntries(other) ==> Emitted(files) == Archive(es);
    var tail2 := EmittedParts(files);
    ArchiveParts(es);
    TrailerStarts(es);
    hide Entries;
    hide Trailer;
    hide Archive;
    hide ToEntries;
    hide EmittedFrom;
    hide Emitted;
    hide AllWritten;
    hide StartsTrailer;
    SameEntries(es, Trailer(es), files, tail2, 0);
  }

  /**
   * The first `n` bytes of what is emitted for `files` are a complete archive of some list
   * of files exactly when they are all of it and every file could be archived; and then of
   * lists with the same entries only.
   */
  lemma CompleteExactly(files: seq<SourceFile>, n: nat, other: seq<SourceFile>)
    requires n <= |Emitted(files)|
    ensures IsArchive(Emitted(files)[..n], other) <==>
              ToEntries(files).Ok? && n == |Emitted(files)| && ToEntries(files) == ToEntries(other)
  {
    hide ToEntries;
    hide Archive;
    hide EmittedFrom;
    if IsArchive(Emitted(files)[..n], other) {
      ArchiveInEmission(files, other, n);
    } else {
      assert Emitted(files)[..|Emitted(files)|] == Emitted(files);
    }
  }
}

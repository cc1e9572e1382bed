/**
 * `write_zip` and `estimate_zip_size`: which entries a list of files gives, and the
 * loop that emits them with running offsets and a central directory kept on the side.
 */
module ZipWriter {
  import opened Wrappers
  import opened Bytes
  import opened ZipFormat
  import opened ZipPath
  import opened Streams
  import Crc32

  /** A file as found by stat (`size`) and as it reads when opened (`disk`). */
  datatype SourceFile = SourceFile(rel: seq<Component>, size: u64, disk: Option<seq<u8>>)

  datatype WriteError = BadName(reason: PathError) | NameTooLong | CannotOpen | UnexpectedEof

  /** The entry of one file: its first `size` bytes, which must be there. */
  function ToEntry(f: SourceFile): Result<Entry, WriteError> {
    match ZipName(f.rel)
    case Err(e) => Err(BadName(e))
    case Ok(name) =>
      if |name| > MAX_U16 then Err(NameTooLong)
      else if f.disk == None then Err(CannotOpen)
      else if |f.disk.value| < f.size then Err(UnexpectedEof)
      else Ok(Entry(name, f.disk.value[..f.size]))
  }

  /** The entries of a list of files; the first file that fails decides the error. */
  function ToEntries(files: seq<SourceFile>): (r: Result<seq<Entry>, WriteError>)
    ensures r.Ok? ==> |r.value| == |files|
  {
    if files == [] then Ok([])
    else
      var e :- ToEntry(files[0]);
      var rest :- ToEntries(files[1..]);
      Ok([e] + rest)
  }

  /** Which files can be archived: all named, by at most 65535 bytes, and with the data stat has promised. */
  lemma {:induction false} ArchivedExactly(files: seq<SourceFile>)
    ensures ToEntries(files).Ok? <==>
            forall f :: f in files ==>
              ZipName(f.rel).Ok? && |ZipName(f.rel).value| <= 65535 && f.disk.Some? && |f.disk.value| >= f.size
    ensures ToEntries(files).Ok? ==>
            forall i :: 0 <= i < |files| ==>
              && ToEntries(files).value[i].name == ZipName(files[i].rel).value
              && |ToEntries(files).value[i].data| == files[i].size
              && ToEntries(files).value[i].data <= files[i].disk.value
  {
    hide ZipName;
    if files != [] {
      ArchivedExactly(files[1..]);
      assert files == [files[0]] + files[1..];
    }
  }

  /** A local header up to its sizes: what is written before the length of the name is looked at. */
  function HeaderStart(size: nat, zip64: bool): seq<u8> {
    LE(LOCAL_SIG, 4)
    + Fields([VERSION, FLAGS, STORED, 0, 0, 0, SizeField(size, zip64), SizeField(size, zip64)], START_WIDTHS)
  }

  const START_WIDTHS: seq<nat> := [2, 2, 2, 2, 2, 4, 4, 4]

  /** The rest of a local header. */
  function HeaderEnd(name: seq<u8>, size: nat, zip64: bool): seq<u8> {
    Fields([|name|, if zip64 then 20 else 0], [2, 2]) + name + LocalExtra(size, zip64)
  }

  /** What is emitted for a file that cannot be archived, before the error. */
  function Partial(f: SourceFile, offset: nat): seq<u8>
    requires ToEntry(f).Err?
  {
    var zip64 := NeedsZip64(f.size, offset);
    match ZipName(f.rel)
    case Err(_) => []
    case Ok(name) =>
      if |name| > MAX_U16 then HeaderStart(f.size, zip64)
      else HeaderStart(f.size, zip64) + HeaderEnd(name, f.size, zip64)
           + (if f.disk == None then [] else f.disk.value)
  }

  /** What the entry loop emits from `offset` on, up to the first file that fails. */
  function EmittedFrom(files: seq<SourceFile>, offset: nat): seq<u8>
    decreases files
  {
    if files == [] then []
    else
      match ToEntry(files[0])
      case Err(_) => Partial(files[0], offset)
      case Ok(e) =>
        var b := EntryBytes(e, offset);
        b + EmittedFrom(files[1..], offset + |b|)
  }

  /** Everything `write_zip` emits, whether it succeeds or not. */
  function Emitted(files: seq<SourceFile>): seq<u8> {
    if ToEntries(files).Ok? then Archive(ToEntries(files).value) else EmittedFrom(files, 0)
  }

  predicate IsArchive(blob: seq<u8>, files: seq<SourceFile>) {
    ToEntries(files).Ok? && blob == Archive(ToEntries(files).value)
  }

  lemma HeaderParts(name: seq<u8>, size: nat, zip64: bool)
    ensures HeaderStart(size, zip64) + HeaderEnd(name, size, zip64) ==
            LE(LOCAL_SIG, 4) + Fields(LocalFields(|name|, size, zip64), LOCAL_WIDTHS)
            + name + LocalExtra(size, zip64)
  {
    hide Fields;
    hide LE;
    hide LocalExtra;
    var front := [VERSION, FLAGS, STORED, 0, 0, 0, SizeField(size, zip64), SizeField(size, zip64)];
    var back := [|name|, if zip64 then 20 else 0];
    FieldsConcat(front, START_WIDTHS, back, [2, 2]);
    assert front + back == LocalFields(|name|, size, zip64) && START_WIDTHS + [2, 2] == LOCAL_WIDTHS;
  }

  /** What the entries of `a + b` come to, in the archive and in its index. */
  lemma {:induction false} LayoutConcat(a: seq<Entry>, b: seq<Entry>, offset: nat)
    ensures var at := offset + |Entries(a, offset)|;
            && Entries(a + b, offset) == Entries(a, offset) + Entries(b, at)
            && Index(a + b, offset) == Index(a, offset) + Index(b, at)
  {
    hide *;
    LaidOut(a, offset);
    if a == [] {
      assert a + b == b;
    } else {
      var at := offset + |EntryBytes(a[0], offset)|;
      LayoutConcat(a[1..], b, at);
      LaidOut(a + b, offset);
      assert (a + b)[0] == a[0] && (a + b)[1..] == a[1..] + b;
    }
  }

  lemma EntriesSnoc(a: seq<Entry>, e: Entry)
    ensures Entries(a + [e], 0) == Entries(a, 0) + EntryBytes(e, |Entries(a, 0)|)
    ensures Index(a + [e], 0) ==
            Index(a, 0) + [CentralEntry(e.name, Crc32.Of(e.data), |e.data|, |Entries(a, 0)|,
                                        NeedsZip64(|e.data|, |Entries(a, 0)|))]
  {
    var offset := |Entries(a, 0)|;
    assert CentralOf(e, offset) ==
           CentralEntry(e.name, Crc32.Of(e.data), |e.data|, offset, NeedsZip64(|e.data|, offset));
    hide *;
    LayoutConcat(a, [e], 0);
    LaidOut([e], offset);
    assert [e][1..] == [];
    LaidOut([], offset + |EntryBytes(e, offset)|);
  }

  const WRITE_BUFFER := 4 * 1024 * 1024

  /** The copy loop: exactly `size` bytes, or an error when the file is shorter. */
  method CopyFile(w: Sink, file: Source, size: nat) returns (crc: Option<nat>)
    requires w != file as object
    modifies w, file
    ensures crc == (if size <= |old(file.rest)| then Some(Crc32.Of(old(file.rest)[..size])) else None)
    ensures w.bytes == old(w.bytes) + if crc.Some? then old(file.rest)[..size] else old(file.rest)
  {
    hide Crc32.Xor;
    hide Crc32.ShiftBits;
    var remaining := size;
    var hasher := 0xFFFF_FFFF;
    ghost var copied: seq<u8> := [];
    while remaining > 0
      invariant 0 <= remaining <= size && |copied| == size - remaining
      invariant copied + file.rest == old(file.rest)
      invariant w.bytes == old(w.bytes) + copied
      invariant hasher == Crc32.Update(0xFFFF_FFFF, copied)
    {
      var buf := file.Read(if WRITE_BUFFER < remaining then WRITE_BUFFER else remaining);
      if buf == [] {
        assert copied == old(file.rest);
        return None;
      }
      w.WriteAll(buf);
      Crc32.UpdateConcat(0xFFFF_FFFF, copied, buf);
      hasher := Crc32.Update(hasher, buf);
      assert copied + (buf + file.rest) == copied + buf + file.rest;
      copied := copied + buf;
      remaining := remaining - |buf|;
    }
    assert copied == old(file.rest)[..size];
    crc := Some(Crc32.Finish(hasher));
  }

  /** One round of the entry loop. */
  method WriteEntry(w: Sink, f: SourceFile, offset: nat)
    returns (r: Result<(CentralEntry, nat), WriteError>)
    modifies w
    ensures match ToEntry(f)
            case Err(e) => r == Err(e) && w.bytes == old(w.bytes) + Partial(f, offset)
            case Ok(e) =>
              && w.bytes == old(w.bytes) + EntryBytes(e, offset)
              && r == Ok((CentralEntry(e.name, Crc32.Of(e.data), |e.data|, offset,
                                       NeedsZip64(|e.data|, offset)),
                          offset + |EntryBytes(e, offset)|))
  {
    hide ZipName;
    hide Crc32.Of;
    hide Fields;
    hide LE;
    var name := ZipName(f.rel);
    if name.Err? {
      return Err(BadName(name.error));
    }
    var zip64 := NeedsZip64(f.size, offset);
    var size := SizeField(f.size, zip64);
    var extra := LocalExtra(f.size, zip64);
    w.WriteAll(LE(LOCAL_SIG, 4) + Fields([VERSION, FLAGS, STORED, 0, 0, 0, size, size], START_WIDTHS));
    if |name.value| > MAX_U16 {
      return Err(NameTooLong);
    }
    w.WriteAll(Fields([|name.value|, if zip64 then 20 else 0], [2, 2]) + name.value + extra);
    HeaderParts(name.value, f.size, zip64);
    Regroup(old(w.bytes), HeaderStart(f.size, zip64), HeaderEnd(name.value, f.size, zip64));
    var next := offset + 30 + |name.value| + |extra|;
    if f.disk == None {
      return Err(CannotOpen);
    }
    ghost var e := Entry(name.value, f.disk.value[..if f.size <= |f.disk.value| then f.size else 0]);
    ghost var header := w.bytes;
    var file := new Source(f.disk.value);
    var crc := CopyFile(w, file, f.size);
    if crc == None {
      return Err(UnexpectedEof);
    }
    next := next + f.size;
    assert w.bytes == old(w.bytes) + LocalHeader(e, zip64) + e.data;
    w.WriteAll(LE(DESCRIPTOR_SIG, 4) + Fields([crc.value, f.size, f.size], DescriptorWidths(zip64)));
    next := next + if zip64 then 24 else 16;
    WrittenEntry(old(w.bytes), e, offset);
    r := Ok((CentralEntry(name.value, crc.value, f.size, offset, zip64), next));
  }

  lemma Regroup(a: seq<u8>, b: seq<u8>, c: seq<u8>)
    ensures a + b + c == a + (b + c)
  {
  }

  lemma WrittenEntry(before: seq<u8>, e: Entry, offset: nat)
    ensures var zip64 := NeedsZip64(|e.data|, offset);
            && before + LocalHeader(e, zip64) + e.data + Descriptor(e, zip64)
               == before + EntryBytes(e, offset)
            && |EntryBytes(e, offset)| ==
               30 + |e.name| + |LocalExtra(|e.data|, zip64)| + |e.data| + (if zip64 then 24 else 16)
  {
    hide Crc32.Of;
    hide Fields;
    hide LE;
    var zip64 := NeedsZip64(|e.data|, offset);
    ExtraLengths(|e.data|, offset, zip64);
    EntryLength(e, offset);
    assert EntryBytes(e, offset) == LocalHeader(e, zip64) + e.data + Descriptor(e, zip64);
  }

  /** The central directory loop. */
  method WriteCentral(w: Sink, central: seq<CentralEntry>, offset: nat) returns (next: nat)
    modifies w
    ensures w.bytes == old(w.bytes) + Central(central)
    ensures next == offset + |Central(central)|
  {
    hide Fields;
    hide LE;
    next := offset;
    ghost var done: seq<u8> := [];
    for i := 0 to |central|
      invariant done + Central(central[i..]) == Central(central)
      invariant w.bytes == old(w.bytes) + done
      invariant next == offset + |done|
    {
      var c := central[i];
      var zip64 := c.zip64 || c.offset > MAX_U32;
      var size := SizeField(c.size, zip64);
      var extra := CentralExtra(c.size, c.offset, zip64);
      w.WriteAll(LE(CENTRAL_SIG, 4)
                 + Fields([VERSION, VERSION, FLAGS, STORED, 0, 0, c.crc, size, size, |c.name|,
                           if zip64 then 28 else 0, 0, 0, 0, 0, if zip64 then SENTINEL else c.offset],
                          CENTRAL_WIDTHS)
                 + c.name + extra);
      next := next + 46 + |c.name| + |extra|;
      CentralLength(c);
      ExtraLengths(c.size, c.offset, zip64);
      assert central[i..][1..] == central[i + 1..];
      done := done + CentralBytes(c);
    }
  }

  /** The first `i` files have given `done`, up to `offset`; what the rest decides is still open. */
  predicate Progress(files: seq<SourceFile>, i: nat, done: seq<Entry>, offset: nat) {
    && i <= |files| && offset == |Entries(done, 0)|
    && ToEntries(files) == (match ToEntries(files[i..])
                            case Err(e) => Err(e)
                            case Ok(rest) => Ok(done + rest))
    && EmittedFrom(files, 0) == Entries(done, 0) + EmittedFrom(files[i..], offset)
  }

  lemma ProgressStart(files: seq<SourceFile>)
    ensures Progress(files, 0, [], 0)
  {
    assert files[0..] == files;
    assert ToEntries(files).Ok? ==> [] + ToEntries(files).value == ToEntries(files).value;
    assert EmittedFrom(files, 0) == [] + EmittedFrom(files, 0);
  }

  lemma ProgressNext(files: seq<SourceFile>, i: nat, done: seq<Entry>, offset: nat)
    requires Progress(files, i, done, offset) && i < |files| && ToEntry(files[i]).Ok?
    ensures var e := ToEntry(files[i]).value;
            Progress(files, i + 1, done + [e], offset + |EntryBytes(e, offset)|)
  {
    hide EntryBytes;
    hide ToEntry;
    hide Entries;
    var e, rest := ToEntry(files[i]).value, files[i + 1..];
    assert files[i..][1..] == rest && files[i..][0] == files[i];
    EntriesSnoc(done, e);
    assert ToEntries(rest).Ok? ==> done + ([e] + ToEntries(rest).value) == done + [e] + ToEntries(rest).value;
    var b := EntryBytes(e, offset);
    var tail := EmittedFrom(rest, offset + |b|);
    Regroup(Entries(done, 0), b, tail);
  }

  lemma ProgressFails(files: seq<SourceFile>, i: nat, done: seq<Entry>, offset: nat)
    requires Progress(files, i, done, offset) && i < |files| && ToEntry(files[i]).Err?
    ensures ToEntries(files) == Err(ToEntry(files[i]).error)
    ensures EmittedFrom(files, 0) == Entries(done, 0) + Partial(files[i], offset)
  {
    hide ToEntry;
    hide Partial;
    hide Entries;
    assert files[i..][0] == files[i];
  }

  lemma ProgressEnds(files: seq<SourceFile>, done: seq<Entry>, offset: nat)
    requires Progress(files, |files|, done, offset)
    ensures ToEntries(files) == Ok(done)
  {
    assert files[|files|..] == [] && done + [] == done;
  }

  /** The entry loop: local headers, data and descriptors, and the directory kept on the side. */
  method WriteEntries(w: Sink, files: seq<SourceFile>)
    returns (r: Result<(seq<CentralEntry>, nat), WriteError>)
    modifies w
    ensures match ToEntries(files)
            case Err(e) => r == Err(e) && w.bytes == old(w.bytes) + EmittedFrom(files, 0)
            case Ok(es) => r == Ok((Index(es, 0), |Entries(es, 0)|)) && w.bytes == old(w.bytes) + Entries(es, 0)
  {
    hide EntryBytes;
    hide Entries;
    hide Crc32.Of;
    hide ToEntry;
    hide ToEntries;
    hide EmittedFrom;
    hide Partial;
    hide Progress;
    var offset := 0;
    var central: seq<CentralEntry> := [];
    ghost var done: seq<Entry> := [];
    ProgressStart(files);
    LaidOut([], 0);
    for i := 0 to |files|
      invariant Progress(files, i, done, offset)
      invariant w.bytes == old(w.bytes) + Entries(done, 0)
      invariant offset == |Entries(done, 0)| && central == Index(done, 0)
    {
      var entry := WriteEntry(w, files[i], offset);
      if entry.Err? {
        ProgressFails(files, i, done, offset);
        Regroup(old(w.bytes), Entries(done, 0), Partial(files[i], offset));
        return Err(entry.error);
      }
      ghost var e := ToEntry(files[i]).value;
      ProgressNext(files, i, done, offset);
      EntriesSnoc(done, e);
      Regroup(old(w.bytes), Entries(done, 0), EntryBytes(e, offset));
      central := central + [entry.value.0];
      offset := entry.value.1;
      done := done + [e];
    }
    ProgressEnds(files, done, offset);
    r := Ok((central, offset));
  }

  /**
   * `write_zip`: emits the archive of the entries and returns its exact length, or
   * stops with the error of the first file that cannot be archived.
   */
  method WriteZip(w: Sink, files: seq<SourceFile>) returns (r: Result<nat, WriteError>)
    modifies w
    ensures w.bytes == old(w.bytes) + Emitted(files)
    ensures match ToEntries(files)
            case Err(e) => r == Err(e)
            case Ok(es) => r == Ok(|Archive(es)|) && Emitted(files) == Archive(es)
  {
    hide ToEntries;
    hide Entries;
    hide Index;
    hide Central;
    hide EndRecord;
    hide End64Records;
    var entries := WriteEntries(w, files);
    if entries.Err? {
      return Err(entries.error);
    }
    var (central, directoryOffset) := entries.value;
    var offset := WriteCentral(w, central, directoryOffset);
    offset := WriteEnd(w, |central|, offset - directoryOffset, directoryOffset, offset);
    WrittenArchive(old(w.bytes), ToEntries(files).value);
    r := Ok(offset);
  }

  lemma WrittenArchive(before: seq<u8>, es: seq<Entry>)
    ensures var size, offset := |CentralDirectory(es)|, DirectoryOffset(es);
            before + Entries(es, 0) + CentralDirectory(es) + End64Records(|es|, size, offset)
            + EndRecord(|es|, size, offset) == before + Archive(es)
  {
    hide Entries;
    hide Central;
    hide Index;
    hide EndRecord;
    hide End64Records;
  }

  /** The end records, Zip64 ones first when a count, size or offset calls for them. */
  method WriteEnd(w: Sink, count: nat, size: nat, directoryOffset: nat, offset: nat) returns (next: nat)
    modifies w
    ensures w.bytes ==
            old(w.bytes) + End64Records(count, size, directoryOffset) + EndRecord(count, size, directoryOffset)
    ensures next ==
            offset + |End64Records(count, size, directoryOffset)| + |EndRecord(count, size, directoryOffset)|
  {
    hide Fields;
    hide LE;
    next := offset;
    var end64 := NeedsEnd64(count, size, directoryOffset);
    if end64 {
      w.WriteAll(LE(END64_SIG, 4)
                 + Fields([44, VERSION, VERSION, 0, 0, count, count, size, directoryOffset], END64_WIDTHS)
                 + (LE(LOCATOR64_SIG, 4) + Fields([0, directoryOffset + size, 1], LOCATOR64_WIDTHS)));
      next := next + 56 + 20;
    }
    assert w.bytes == old(w.bytes) + End64Records(count, size, directoryOffset);
    var tail := if end64 then [0, 0, MAX_U16, MAX_U16, SENTINEL, SENTINEL, 0]
                else [0, 0, count, count, size, directoryOffset, 0];
    w.WriteAll(LE(END_SIG, 4) + Fields(tail, END_WIDTHS));
    next := next + 22;
    EndLengths(count, size, directoryOffset);
  }

  /** `estimate_zip_size` of one file. */
  function FileEstimate(f: SourceFile): nat {
    var nameLen := match ZipName(f.rel) case Ok(name) => |name| case Err(_) => 0;
    if f.size > MAX_U32 then (30 + nameLen + 20) + f.size + 24 + (46 + nameLen + 28)
    else (30 + nameLen) + f.size + 16 + (46 + nameLen)
  }

  function Estimate(files: seq<SourceFile>): nat {
    FilesEstimate(files) + 22 + (if |files| > MAX_U16 then 76 else 0)
  }

  function FilesEstimate(files: seq<SourceFile>): nat {
    if files == [] then 0 else FileEstimate(files[0]) + FilesEstimate(files[1..])
  }

  method EstimateZipSize(files: seq<SourceFile>) returns (total: nat)
    ensures total == Estimate(files)
  {
    total := 0;
    for i := 0 to |files|
      invariant total + FilesEstimate(files[i..]) == FilesEstimate(files)
    {
      var f := files[i];
      var name := ZipName(f.rel);
      var nameLen := if name.Ok? then |name.value| else 0;
      var zip64 := f.size > MAX_U32;
      var extraLocal := if zip64 then 4 + 16 else 0;
      var extraCentral := if zip64 then 4 + 24 else 0;
      total := total + 30 + nameLen + extraLocal;
      total := total + f.size;
      total := total + if zip64 then 24 else 16;
      total := total + 46 + nameLen + extraCentral;
      assert files[i..][1..] == files[i + 1..];
    }
    total := total + 22;
    if |files| > MAX_U16 {
      total := total + 56 + 20;
    }
  }
}

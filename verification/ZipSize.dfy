/** The real size of an archive against its estimate, and the size the reader refuses. */
module ZipSize {
  import opened Wrappers
  import opened Bytes
  import opened ZipFormat
  import opened ZipPath
  import opened Dest
  import opened ZipReader
  import opened ZipWriter
  import opened ZipRoundTrip
  import opened ZipTheorems
  import Crc32

  /** Entries that need Zip64 records for their offset alone. */
  function LateSmall(es: seq<Entry>, offset: nat): nat {
    if es == [] then 0
    else
      (if |es[0].data| <= MAX_U32 < offset then 1 else 0)
      + LateSmall(es[1..], offset + |EntryBytes(es[0], offset)|)
  }

  lemma FileAccounting(f: SourceFile, offset: nat)
    requires ToEntry(f).Ok?
    ensures var e := ToEntry(f).value;
            var c := CentralEntry(e.name, Crc32.Of(e.data), |e.data|, offset, NeedsZip64(|e.data|, offset));
            |EntryBytes(e, offset)| + |CentralBytes(c)| ==
            FileEstimate(f) + if |e.data| <= MAX_U32 < offset then 56 else 0
  {
    hide EntryBytes;
    hide CentralBytes;
    hide Crc32.Of;
    var e := ToEntry(f).value;
    EntryLength(e, offset);
    CentralLength(CentralEntry(e.name, Crc32.Of(e.data), |e.data|, offset, NeedsZip64(|e.data|, offset)));
  }

  lemma {:induction false} EntriesAccounting(files: seq<SourceFile>, offset: nat)
    requires ToEntries(files).Ok?
    ensures var es := ToEntries(files).value;
            |Entries(es, offset)| + |Central(Index(es, offset))| ==
            FilesEstimate(files) + 56 * LateSmall(es, offset)
    decreases files
  {
    hide EntryBytes;
    hide CentralBytes;
    hide Crc32.Of;
    hide ToEntry;
    hide FileEstimate;
    if files != [] {
      var es := ToEntries(files).value;
      FileAccounting(files[0], offset);
      EntriesAccounting(files[1..], offset + |EntryBytes(es[0], offset)|);
      assert es[1..] == ToEntries(files[1..]).value;
      var cs := Index(es, offset);
      assert cs[1..] == Index(es[1..], offset + |EntryBytes(es[0], offset)|);
    }
  }

  /**
   * The archive is longer than its estimate by 56 bytes for each entry that needs Zip64
   * for its offset alone, and by 76 when only offsets or the directory call for Zip64
   * end records.
   */
  lemma SizeAccounting(files: seq<SourceFile>)
    requires ToEntries(files).Ok?
    ensures var es := ToEntries(files).value;
            var end64 := NeedsEnd64(|es|, |CentralDirectory(es)|, DirectoryOffset(es));
            |Archive(es)| == Estimate(files) + 56 * LateSmall(es, 0)
                             + (if end64 && |files| <= MAX_U16 then 76 else 0)
  {
    hide Entries;
    hide Central;
    hide Index;
    hide ToEntries;
    hide End64Records;
    hide EndRecord;
    hide FilesEstimate;
    hide LateSmall;
    var es := ToEntries(files).value;
    EntriesAccounting(files, 0);
    EndLengths(|es|, |CentralDirectory(es)|, DirectoryOffset(es));
  }

  /** The exception is real: a single file of 0xFFFF_FFFF bytes is written and cannot be read back. */
  lemma AmbiguousSizeFails(data: seq<u8>)
    requires |data| == SENTINEL
    ensures var files := [SourceFile([Normal([0x61])], SENTINEL, Some(data))];
            && ToEntries(files).Ok?
            && Extract(Archive(ToEntries(files).value), EMPTY).Failed?
  {
    var f := SourceFile([Normal([0x61])], SENTINEL, Some(data));
    var e := Entry([0x61], data);
    assert data[..SENTINEL] == data;
    assert ToEntry(f) == Ok(e);
    OneFile(f, e);
    var files := [f];
    assert TreeLike(files);
    hide Extract;
    hide Archive;
    RoundTrip(files);
    assert Ambiguous([e][0], 0);
  }

  lemma OneFile(f: SourceFile, e: Entry)
    requires ToEntry(f) == Ok(e)
    ensures ToEntries([f]) == Ok([e])
  {
    hide ToEntry;
    var none: seq<SourceFile> := [];
    assert [f][1..] == none;
    assert ToEntries(none) == Ok([]);
    assert [e] + [] == [e];
  }
}

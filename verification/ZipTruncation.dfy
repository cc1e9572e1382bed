/** What every prefix of an archive extracts to. */
module ZipTruncation {
  import opened Wrappers
  import opened Bytes
  import opened ZipFormat
  import opened ZipPath
  import opened Dest
  import opened ZipReader
  import opened ZipWriter
  import opened ZipRoundTrip
  import opened ZipTheorems
  import Crc32

  lemma ParseHeaderExtends(s: seq<u8>, more: seq<u8>)
    requires ParseHeader(s).Ok?
    ensures var (h, rest) := ParseHeader(s).value; ParseHeader(s + more) == Ok((h, rest + more))
  {
    ReadFieldsExtends(s, LOCAL_WIDTHS, more);
    var (f, s1) := ReadFields(s, LOCAL_WIDTHS).value;
    SliceExtends(s1, more, 0, f[8]);
    SliceExtends(s1, more, f[8], f[8] + f[9]);
    hide ReadFields;
    hide ParseZip64;
  }

  lemma SliceExtends(s: seq<u8>, more: seq<u8>, i: nat, j: nat)
    requires i <= j <= |s|
    ensures (s + more)[i..j] == s[i..j] && (s + more)[j..] == s[j..] + more
  {
  }

  lemma ParseDescriptorExtends(s: seq<u8>, zip64: bool, more: seq<u8>)
    requires ParseDescriptor(s, zip64).Some?
    ensures var (v, rest) := ParseDescriptor(s, zip64).value;
            ParseDescriptor(s + more, zip64) == Some((v, rest + more))
  {
    assert (s + more)[..4] == s[..4] && (s + more)[4..] == s[4..] + more;
    var widths := if Value(s[..4]) == DESCRIPTOR_SIG then DescriptorWidths(zip64) else SizeWidths(zip64);
    ReadFieldsExtends(s[4..], widths, more);
    hide ReadFields;
    hide Value;
  }

  lemma ReadBodyExtends(h: Header, p: Path, s: seq<u8>, t: Tree, more: seq<u8>)
    requires ReadBody(h, p, s, t).Next?
    ensures ReadBody(h, p, s + more, t) ==
            Next(ReadBody(h, p, s, t).tree, ReadBody(h, p, s, t).rest + more)
  {
    var n := h.csize;
    assert (s + more)[..n] == s[..n] && (s + more)[n..] == s[n..] + more;
    if HasDescriptor(h.flags) {
      ParseDescriptorExtends(s[n..], h.zip64, more);
    }
    hide ParseDescriptor;
    hide Crc32.Of;
  }

  lemma ReadEntryExtends(s: seq<u8>, t: Tree, more: seq<u8>)
    requires ReadEntry(s, t).Next?
    ensures ReadEntry(s + more, t) == Next(ReadEntry(s, t).tree, ReadEntry(s, t).rest + more)
  {
    ParseHeaderExtends(s, more);
    var (h, s1) := ParseHeader(s).value;
    if !IsDirectoryName(h.name) {
      var p := Place(h.name).value;
      ReadBodyExtends(h, p, s1, MakeFile(t, p).value, more);
    }
    hide ParseHeader;
    hide ReadBody;
    hide MakeFile;
    hide MakeDirs;
    hide Place;
  }

  /** A step that completes on some input completes alike when more input follows. */
  lemma ReadStepExtends(s: seq<u8>, t: Tree, more: seq<u8>)
    requires ReadStep(s, t).Next?
    ensures ReadStep(s + more, t) == Next(ReadStep(s, t).tree, ReadStep(s, t).rest + more)
  {
    assert (s + more)[..4] == s[..4] && (s + more)[4..] == s[4..] + more;
    ReadEntryExtends(s[4..], t, more);
    hide ReadEntry;
    hide Value;
  }

  /** An entry cut short behind its signature is an error. */
  lemma CutEntryFails(e: Entry, offset: nat, t: Tree, n: nat)
    requires Written(e) && HasRoom(t, e)
    requires 4 <= n < |EntryBytes(e, offset)|
    ensures Extract(EntryBytes(e, offset)[..n], t).Failed?
  {
    var b := EntryBytes(e, offset);
    var s := b[..n];
    hide *;
    ExtractUnfolds(s, t);
    EntryRoundTrip(e, offset, t, []);
    EntryStartsLocal(e, offset);
    assert b + [] == b;
    assert s[..4] == b[..4];
    assert s + b[n..] == b;
    LocalNeverFinishes(s, t);
    if ReadStep(s, t).Next? {
      ReadStepExtends(s, t, b[n..]);
      assert false;
    }
  }

  lemma LocalNeverFinishes(s: seq<u8>, t: Tree)
    requires |s| >= 4 && Value(s[..4]) == LOCAL_SIG
    ensures ReadStep(s, t).Halt? ==> ReadStep(s, t).outcome.Failed?
  {
    hide ReadEntry;
    hide Value;
  }

  lemma EntryStartsLocal(e: Entry, offset: nat)
    ensures |EntryBytes(e, offset)| >= 46 && Value(EntryBytes(e, offset)[..4]) == LOCAL_SIG
  {
    Widths();
    ValueOfLE(LOCAL_SIG, 4);
    EntryLength(e, offset);
    hide Fields;
    hide LE;
    hide Crc32.Of;
    var zip64 := NeedsZip64(|e.data|, offset);
    assert LocalHeader(e, zip64)[..4] == LE(LOCAL_SIG, 4);
    assert EntryBytes(e, offset)[..4] == LocalHeader(e, zip64)[..4];
  }

  /** The cuts `extract_zip` takes for the end of an archive. */
  predicate CleanCut(es: seq<Entry>, offset: nat, n: nat) {
    n < 4 || es == []
    || (var b := |EntryBytes(es[0], offset)|;
        n >= b && CleanCut(es[1..], offset + b, n - b))
  }

  /** How many entries lie wholly in the first `n` bytes. */
  function WholeEntries(es: seq<Entry>, offset: nat, n: nat): (k: nat)
    ensures k <= |es|
  {
    if es == [] then 0
    else
      var b := |EntryBytes(es[0], offset)|;
      if n < b then 0 else 1 + WholeEntries(es[1..], offset + b, n - b)
  }

  lemma CutUnfold(es: seq<Entry>, offset: nat, n: nat)
    requires es != []
    ensures var b := |EntryBytes(es[0], offset)|;
            && b >= 46
            && (CleanCut(es, offset, n) <==> n < 4 || (n >= b && CleanCut(es[1..], offset + b, n - b)))
            && WholeEntries(es, offset, n) == if n < b then 0 else 1 + WholeEntries(es[1..], offset + b, n - b)
  {
    EntryStartsLocal(es[0], offset);
    hide EntryBytes;
  }

  lemma ShortInput(s: seq<u8>, t: Tree)
    requires |s| < 4
    ensures Extract(s, t) == Finished(t, [])
  {
  }

  /** A cut inside the first of several entries. */
  lemma CutFirst(es: seq<Entry>, offset: nat, t: Tree, all: seq<u8>, n: nat)
    requires AllWritten(es) && es != [] && HasRoom(t, es[0]) && !Ambiguous(es[0], offset)
    requires EntryBytes(es[0], offset) <= all && n < |EntryBytes(es[0], offset)|
    ensures if n < 4 then Extract(all[..n], t) == Finished(t, []) else Extract(all[..n], t).Failed?
  {
    var b := EntryBytes(es[0], offset);
    WrittenFirst(es);
    hide *;
    assert all[..n] == b[..n];
    if n < 4 {
      ShortInput(b[..n], t);
    } else {
      CutEntryFails(es[0], offset, t, n);
    }
  }

  /** A cut behind the first of several entries. */
  lemma CutLater(es: seq<Entry>, offset: nat, t: Tree, rest: seq<u8>, n: nat)
    requires AllWritten(es) && es != [] && HasRoom(t, es[0]) && !Ambiguous(es[0], offset)
    requires |EntryBytes(es[0], offset)| <= n <= |EntryBytes(es[0], offset) + rest|
    ensures var b := EntryBytes(es[0], offset);
            Extract((b + rest)[..n], t) == Extract(rest[..n - |b|], AddFile(t, es[0]))
  {
    var b := EntryBytes(es[0], offset);
    WrittenFirst(es);
    hide *;
    EntryRoundTrip(es[0], offset, t, rest[..n - |b|]);
    assert (b + rest)[..n] == b + rest[..n - |b|];
    ExtractUnfolds((b + rest)[..n], t);
  }

  lemma {:induction false} ExtractCut(es: seq<Entry>, offset: nat, t: Tree, tail: seq<u8>, n: nat)
    requires AllWritten(es) && Fits(t, es) && Unambiguous(es, offset) && StartsTrailer(tail)
    requires n <= |Entries(es, offset) + tail|
    ensures var outcome := Extract((Entries(es, offset) + tail)[..n], t);
            && (outcome.Finished? <==> CleanCut(es, offset, n))
            && (outcome.Finished? ==>
                  AllWritten(es[..WholeEntries(es, offset, n)])
                  && outcome.tree == AddFiles(t, es[..WholeEntries(es, offset, n)]))
    decreases es
  {
    hide *;
    if es == [] {
      CutTrailer(es, offset, tail, t, n);
      AddNone(t, es);
    } else {
      var b := EntryBytes(es[0], offset);
      var rest := Entries(es[1..], offset + |b|) + tail;
      EntriesFirst(es, offset, tail);
      WrittenFirst(es);
      EntriesUnfold(es, offset, t);
      CutUnfold(es, offset, n);
      if n >= |b| {
        CutLater(es, offset, t, rest, n);
        FitsNext(t, es);
        ExtractCut(es[1..], offset + |b|, AddFile(t, es[0]), tail, n - |b|);
        AddFilesPrefix(t, es, WholeEntries(es, offset, n));
      } else {
        CutFirst(es, offset, t, b + rest, n);
        AddNone(t, es);
      }
    }
  }

  lemma WrittenFirst(es: seq<Entry>)
    requires AllWritten(es) && es != []
    ensures Written(es[0])
  {
  }

  lemma CutTrailer(es: seq<Entry>, offset: nat, tail: seq<u8>, t: Tree, n: nat)
    requires es == [] && StartsTrailer(tail) && n <= |Entries(es, offset) + tail|
    ensures Extract((Entries(es, offset) + tail)[..n], t).Finished?
    ensures Extract((Entries(es, offset) + tail)[..n], t).tree == t
    ensures CleanCut(es, offset, n) && WholeEntries(es, offset, n) == 0
  {
    assert Entries(es, offset) + tail == tail;
    hide Entries;
    if n >= 4 {
      assert tail[..n][..4] == tail[..4];
      ExtractTrailer(tail[..n], t);
    }
  }

  /** Where the `k`-th entry starts when the first one starts at `offset`, counted from there. */
  function BoundaryFrom(es: seq<Entry>, offset: nat, k: nat): nat
    requires k <= |es|
  {
    |Entries(es[..k], offset)|
  }

  lemma BoundaryNext(es: seq<Entry>, offset: nat, k: nat)
    requires 0 < k <= |es|
    ensures var b := |EntryBytes(es[0], offset)|;
            BoundaryFrom(es, offset, k) == b + BoundaryFrom(es[1..], offset + b, k - 1)
  {
    hide EntryBytes;
    assert es[..k][1..] == es[1..][..k - 1];
  }

  lemma BoundaryZero(es: seq<Entry>, offset: nat)
    ensures BoundaryFrom(es, offset, 0) == 0
  {
  }

  lemma {:induction false} BoundariesGrow(es: seq<Entry>, offset: nat, a: nat, b: nat)
    requires a < b <= |es|
    ensures BoundaryFrom(es, offset, a) < BoundaryFrom(es, offset, b)
    decreases es
  {
    hide BoundaryFrom;
    hide EntryBytes;
    BoundaryNext(es, offset, b);
    EntryLength(es[0], offset);
    if a == 0 {
      BoundaryZero(es, offset);
    } else {
      BoundaryNext(es, offset, a);
      BoundariesGrow(es[1..], offset + |EntryBytes(es[0], offset)|, a - 1, b - 1);
    }
  }

  /** Cut between two entries, the archive is shorter, and has the entries before the cut. */
  lemma BoundaryInside(es: seq<Entry>, k: nat)
    requires 0 < k < |es|
    ensures 0 < BoundaryFrom(es, 0, k) < |Archive(es)| && WholeEntries(es, 0, BoundaryFrom(es, 0, k)) == k
  {
    var n := BoundaryFrom(es, 0, k);
    assert es[..|es|] == es && BoundaryFrom(es, 0, |es|) == DirectoryOffset(es);
    ArchiveParts(es);
    hide *;
    BoundariesGrow(es, 0, 0, k);
    BoundaryZero(es, 0);
    BoundariesGrow(es, 0, k, |es|);
    WholeEntriesMeaning(es, 0, n);
    var j := WholeEntries(es, 0, n);
    if j < k {
      if j + 1 < k {
        BoundariesGrow(es, 0, j + 1, k);
      }
    } else if k < j {
      BoundariesGrow(es, 0, k, j);
    }
  }

  lemma CleanCutBase(es: seq<Entry>, offset: nat, n: nat)
    requires n < 4 || es == []
    ensures CleanCut(es, offset, n)
  {
  }

  /** The cut is at the start of the `k`-th entry or up to three bytes behind it. */
  predicate JustBehind(es: seq<Entry>, offset: nat, k: int, n: nat) {
    0 <= k <= |es| && BoundaryFrom(es, offset, k) <= n <= BoundaryFrom(es, offset, k) + 3
  }

  /** A clean cut is one up to three bytes behind an entry, or anywhere in the trailer. */
  lemma {:induction false} CleanCutMeaning(es: seq<Entry>, offset: nat, n: nat)
    ensures CleanCut(es, offset, n) <==>
            n >= BoundaryFrom(es, offset, |es|) || exists k :: JustBehind(es, offset, k, n)
    decreases es
  {
    hide EntryBytes;
    hide BoundaryFrom;
    hide CleanCut;
    BoundaryZero(es, offset);
    if n < 4 || es == [] {
      CleanCutBase(es, offset, n);
      assert JustBehind(es, offset, 0, n) || n >= BoundaryFrom(es, offset, |es|);
    } else {
      var b := |EntryBytes(es[0], offset)|;
      CutUnfold(es, offset, n);
      BoundaryNext(es, offset, |es|);
      if n >= b {
        var rest, at, m := es[1..], offset + b, n - b;
        CleanCutMeaning(rest, at, m);
        if k :| JustBehind(rest, at, k, m) {
          BoundaryNext(es, offset, k + 1);
          assert JustBehind(es, offset, k + 1, n);
        }
      }
      if k :| JustBehind(es, offset, k, n) {
        BoundaryNext(es, offset, k);
        assert n >= b && JustBehind(es[1..], offset + b, k - 1, n - b);
      }
    }
  }

  /** The whole entries of a cut are those up to the last boundary it reaches. */
  lemma {:induction false} WholeEntriesMeaning(es: seq<Entry>, offset: nat, n: nat)
    ensures var k := WholeEntries(es, offset, n);
            && BoundaryFrom(es, offset, k) <= n
            && (k < |es| ==> n < BoundaryFrom(es, offset, k + 1))
    decreases es
  {
    hide EntryBytes;
    hide BoundaryFrom;
    BoundaryZero(es, offset);
    if es != [] {
      var b := |EntryBytes(es[0], offset)|;
      var k := WholeEntries(es, offset, n);
      CutUnfold(es, offset, n);
      hide WholeEntries;
      if n >= b {
        WholeEntriesMeaning(es[1..], offset + b, n - b);
        BoundaryNext(es, offset, k);
      }
      if k < |es| {
        BoundaryNext(es, offset, k + 1);
      }
    }
  }

  /**
   * Truncation, on every list of files the writer accepts without an ambiguous size and
   * every cut of their archive. Extraction succeeds exactly when the cut is up to three
   * bytes behind an entry or in the trailer, and then holds exactly the files whose
   * entries lie before the cut.
   */
  lemma Truncation(files: seq<SourceFile>, n: nat)
    requires ToEntries(files).Ok? && TreeLike(files) && Unambiguous(ToEntries(files).value, 0)
    requires n <= |Archive(ToEntries(files).value)|
    ensures var es := ToEntries(files).value;
            var outcome := Extract(Archive(es)[..n], EMPTY);
            && (outcome.Finished? <==>
                  n >= BoundaryFrom(es, 0, |es|) || exists k :: JustBehind(es, 0, k, n))
            && (outcome.Finished? ==> HoldsExactly(outcome.tree, files[..WholeEntries(es, 0, n)]))
  {
    hide *;
    var es := ToEntries(files).value;
    var k := WholeEntries(es, 0, n);
    ArchiveParts(es);
    EntriesFit(files);
    TrailerStarts(es);
    ExtractCut(es, 0, EMPTY, Trailer(es), n);
    CleanCutMeaning(es, 0, n);
    FirstEntries(files, k);
    FirstTreeLike(files, k);
    RestoredFiles(files[..k]);
  }
}

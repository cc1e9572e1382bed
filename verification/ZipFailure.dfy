/** What extraction makes of the bytes that a failing writer has emitted. */
module ZipFailure {
  import opened Wrappers
  import opened Bytes
  import opened ZipFormat
  import opened ZipPath
  import opened Dest
  import opened ZipReader
  import opened ZipWriter
  import opened ZipRoundTrip
  import opened ZipTheorems
  import opened ZipTruncation
  import opened ZipPrefix

  /** The first file that fails. */
  function Failing(files: seq<SourceFile>): (k: nat)
    requires ToEntries(files).Err?
    ensures k < |files| && ToEntry(files[k]).Err?
  {
    if ToEntry(files[0]).Err? then 0 else 1 + Failing(files[1..])
  }

  /** The entries before it, and its own part, are what is emitted. */
  lemma {:induction false} FailingSplit(files: seq<SourceFile>, offset: nat)
    requires ToEntries(files).Err?
    ensures var k := Failing(files);
            && ToEntries(files).error == ToEntry(files[k]).error
            && ToEntries(files[..k]).Ok?
            && var es := ToEntries(files[..k]).value;
               EmittedFrom(files, offset) == Entries(es, offset) + Partial(files[k], offset + |Entries(es, offset)|)
    decreases files
  {
    hide ToEntry;
    hide EntryBytes;
    hide Partial;
    var k := Failing(files);
    if k == 0 {
      assert Entries([], offset) == [];
    } else {
      var e, front := ToEntry(files[0]).value, files[..k];
      var b := EntryBytes(e, offset);
      FailingSplit(files[1..], offset + |b|);
      assert front[0] == files[0] && front[1..] == files[1..][..k - 1];
      var rest := ToEntries(front[1..]).value;
      assert ToEntries(front).value == [e] + rest && ([e] + rest)[1..] == rest;
    }
  }

  // ---- The failing file's own part ----

  /** The entry of a file that is missing or too short, zeros in place of what is not there. */
  function Padded(f: SourceFile, name: seq<u8>): Entry {
    var there := There(f);
    Entry(name, there + seq(if |there| < f.size then f.size - |there| else 0, _ => 0))
  }

  function There(f: SourceFile): seq<u8> { if f.disk == None then [] else f.disk.value }

  /** What is emitted of such a file is the beginning of that entry. */
  lemma PartialIsCut(f: SourceFile, offset: nat)
    requires ToEntry(f).Err? && (ToEntry(f).error.CannotOpen? || ToEntry(f).error.UnexpectedEof?)
    ensures ZipName(f.rel).Ok?
    ensures var e := Padded(f, ZipName(f.rel).value);
            && Written(e) && PathOf(e) == Normals(f.rel) && PathOf(e) != []
            && 4 <= |Partial(f, offset)| < |EntryBytes(e, offset)|
            && Partial(f, offset) == EntryBytes(e, offset)[..|Partial(f, offset)|]
  {
    var name, zip64 := ZipName(f.rel).value, NeedsZip64(f.size, offset);
    var e := Padded(f, name);
    NameRoundTrip(f.rel);
    assert Normals(f.rel) != [];
    hide ZipName;
    hide Place;
    assert |e.data| == f.size;
    StartLength(f.size, zip64);
    EntryHeader(e, offset);
    DescriptorLength(e, zip64);
    var h, d := ZipPrefix.Header(name, f.size, zip64), Descriptor(e, zip64);
    hide HeaderStart;
    hide HeaderEnd;
    hide Descriptor;
    hide EntryBytes;
    CutBehind(h, There(f), e.data, d);
    assert Partial(f, offset) == h + There(f);
  }

  lemma CutBehind(h: seq<u8>, there: seq<u8>, data: seq<u8>, d: seq<u8>)
    requires there <= data && d != []
    ensures |h + there| < |h + data + d| && h + there == (h + data + d)[..|h + there|]
  {
    assert data == there + data[|there|..];
  }

  lemma {:induction false} ShortFields(s: seq<u8>, widths: seq<nat>, i: nat)
    requires i <= |widths| && |s| < Sum(widths, i)
    ensures ReadFields(s, widths[i..]).None?
    decreases |widths| - i
  {
    var rest := widths[i..];
    assert rest[1..] == widths[i + 1..] && rest[0] == widths[i];
    if |s| >= widths[i] {
      ShortFields(s[widths[i]..], widths, i + 1);
    }
  }

  /** A header that stops before the length of its name. */
  lemma StartAloneFails(size: nat, zip64: bool, t: Tree)
    ensures Extract(HeaderStart(size, zip64), t).Failed?
  {
    var s := HeaderStart(size, zip64);
    StartLength(size, zip64);
    Widths();
    ValueOfLE(LOCAL_SIG, 4);
    assert s[..4] == LE(LOCAL_SIG, 4);
    assert Sum(LOCAL_WIDTHS, 5) == 16;
    ShortFields(s[4..], LOCAL_WIDTHS, 0);
    assert LOCAL_WIDTHS[0..] == LOCAL_WIDTHS;
    hide ReadFields;
    hide HeaderStart;
    hide Value;
    assert ParseHeader(s[4..]) == Err(Truncated);
    ExtractUnfolds(s, t);
  }

  /** The part of a failing file is taken for the end of the archive exactly when its name is refused. */
  lemma PartialFails(f: SourceFile, offset: nat, t: Tree)
    requires ToEntry(f).Err?
    requires !ToEntry(f).error.BadName? ==> PathFree(t, Normals(f.rel))
    ensures ToEntry(f).error.BadName? ==> Extract(Partial(f, offset), t) == Finished(t, [])
    ensures !ToEntry(f).error.BadName? ==> Extract(Partial(f, offset), t).Failed?
  {
    match ToEntry(f).error
    case BadName(_) => ShortInput([], t);
    case NameTooLong => StartAloneFails(f.size, NeedsZip64(f.size, offset), t);
    case _ =>
      PartialIsCut(f, offset);
      hide *;
      PathFreeMeans(t, Padded(f, ZipName(f.rel).value), Normals(f.rel));
      CutEntryFails(Padded(f, ZipName(f.rel).value), offset, t, |Partial(f, offset)|);
  }

  /** Nothing stands in the way of a file at `p`. */
  predicate PathFree(t: Tree, p: Path) {
    Usable(p) && p !in t.dirs && forall q :: q in Prefixes(p) ==> q !in t.files
  }

  lemma PathFreeMeans(t: Tree, e: Entry, p: Path)
    requires Written(e) && PathOf(e) == p && p != [] && PathFree(t, p)
    ensures HasRoom(t, e)
  {
  }

  predicate Apart(p: Path, q: Path) { !(p <= q) && !(q <= p) }

  lemma ParentBelow(q: Path, p: Path)
    requires q != [] && p in Prefixes(q[..|q| - 1])
    ensures p <= q
  {
  }

  lemma FreeNext(t: Tree, e: Entry, p: Path)
    requires Written(e) && PathFree(t, p) && Apart(PathOf(e), p)
    ensures PathFree(AddFile(t, e), p)
  {
    var q := PathOf(e);
    if |q| > 0 && p in Prefixes(q[..|q| - 1]) {
      ParentBelow(q, p);
    }
    assert q !in Prefixes(p);
  }

  /** Entries apart from the path leave it free. */
  lemma {:induction false} FreeBehind(t: Tree, es: seq<Entry>, p: Path)
    requires AllWritten(es) && PathFree(t, p) && forall i :: 0 <= i < |es| ==> Apart(PathOf(es[i]), p)
    ensures PathFree(AddFiles(t, es), p)
    decreases es
  {
    hide Written;
    hide PathOf;
    hide PathFree;
    hide AddFile;
    if es != [] {
      FreeNext(t, es[0], p);
      assert forall i :: 0 <= i < |es[1..]| ==> es[1..][i] == es[i + 1];
      FreeBehind(AddFile(t, es[0]), es[1..], p);
    }
  }

  /** The failing file of a directory tree finds its path free. */
  lemma FailingFree(files: seq<SourceFile>, es: seq<Entry>, k: nat)
    requires TreeLike(files) && k < |files| && ToEntries(files[..k]) == Ok(es) && Normals(files[k].rel) != []
    ensures AllWritten(es) && PathFree(AddFiles(EMPTY, es), Normals(files[k].rel))
  {
    hide ToEntries;
    var p := Normals(files[k].rel);
    EntriesOfFiles(files[..k]);
    hide Written;
    hide PathOf;
    hide Normals;
    forall i | 0 <= i < |es|
      ensures Apart(PathOf(es[i]), p)
    {
      assert files[..k][i] == files[i];
    }
    assert PathFree(EMPTY, p);
    hide PathFree;
    FreeBehind(EMPTY, es, p);
  }

  lemma NamedWhenNotBad(f: SourceFile)
    requires ToEntry(f).Err? && !ToEntry(f).error.BadName?
    ensures Normals(f.rel) != []
  {
  }

  lemma EmittedOnFailure(files: seq<SourceFile>)
    requires ToEntries(files).Err?
    ensures Emitted(files) == EmittedFrom(files, 0)
  {
  }

  /**
   * For every directory tree that cannot be archived: what the writer has emitted extracts
   * without an error exactly when the first file that fails fails on its name and no size
   * before it is ambiguous; and then to exactly the files before it.
   */
  lemma FailureExtracts(files: seq<SourceFile>)
    requires ToEntries(files).Err? && TreeLike(files)
    ensures var k := Failing(files);
            && ToEntries(files[..k]).Ok?
            && var outcome := Extract(Emitted(files), EMPTY);
               && (outcome.Finished? <==>
                     ToEntries(files).error.BadName? && Unambiguous(ToEntries(files[..k]).value, 0))
               && (outcome.Finished? ==> HoldsExactly(outcome.tree, files[..k]))
  {
    hide *;
    var k := Failing(files);
    FailingSplit(files, 0);
    EmittedOnFailure(files);
    var es := ToEntries(files[..k]).value;
    FirstTreeLike(files, k);
    EntriesFit(files[..k]);
    RestoredFiles(files[..k]);
    var part := Partial(files[k], |Entries(es, 0)|);
    ExtractBehind(es, 0, EMPTY, part);
    if !ToEntry(files[k]).error.BadName? {
      NamedWhenNotBad(files[k]);
      FailingFree(files, es, k);
    }
    PartialFails(files[k], |Entries(es, 0)|, AddFiles(EMPTY, es));
  }
}

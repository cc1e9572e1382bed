/** Whole archives: exactly when extraction undoes `write_zip`, and what it restores otherwise. */
module ZipTheorems {
  import opened Wrappers
  import opened Bytes
  import opened ZipFormat
  import opened ZipPath
  import opened Dest
  import opened ZipReader
  import opened ZipWriter
  import opened ZipRoundTrip

  predicate PrefixFree(es: seq<Entry>)
    requires AllWritten(es)
  {
    forall i, j :: 0 <= i < |es| && 0 <= j < |es| && i != j ==> !(PathOf(es[i]) <= PathOf(es[j]))
  }

  /** Every entry finds room in `t`, and none stands in the way of another. */
  predicate Fits(t: Tree, es: seq<Entry>)
    requires AllWritten(es)
  {
    PrefixFree(es) && forall e :: e in es ==> HasRoom(t, e)
  }

  function AddFiles(t: Tree, es: seq<Entry>): Tree
    requires AllWritten(es)
    decreases es
  {
    if es == [] then t else AddFiles(AddFile(t, es[0]), es[1..])
  }

  lemma FitsNext(t: Tree, es: seq<Entry>)
    requires AllWritten(es) && es != [] && Fits(t, es)
    ensures AllWritten(es[1..]) && Fits(AddFile(t, es[0]), es[1..])
  {
    var p := PathOf(es[0]);
    forall i | 1 <= i < |es|
      ensures HasRoom(AddFile(t, es[0]), es[i])
    {
      var q := PathOf(es[i]);
      assert HasRoom(t, es[i]);
      assert !(p <= q) && !(q <= p);
      assert q !in Prefixes(p[..|p| - 1]);
      assert p !in Prefixes(q);
    }
  }

  /** The condition under which every size is read as it was meant. */
  predicate Unambiguous(es: seq<Entry>, offset: nat) {
    es == [] || (!Ambiguous(es[0], offset)
                 && Unambiguous(es[1..], offset + |EntryBytes(es[0], offset)|))
  }

  /** How many entries come before the first ambiguous one. */
  function UpToAmbiguous(es: seq<Entry>, offset: nat): (n: nat)
    ensures n <= |es|
  {
    if es == [] || Ambiguous(es[0], offset) then 0
    else 1 + UpToAmbiguous(es[1..], offset + |EntryBytes(es[0], offset)|)
  }

  predicate StartsTrailer(s: seq<u8>) { |s| >= 4 && IsTrailerSignature(Value(s[..4])) }

  lemma TrailerStarts(es: seq<Entry>)
    ensures StartsTrailer(Trailer(es))
  {
    var s := Trailer(es);
    var size, offset := |CentralDirectory(es)|, DirectoryOffset(es);
    Widths();
    if es == [] {
      ValueOfLE(END_SIG, 4);
      assert s == EndRecord(|es|, size, offset);
      assert s[..4] == LE(END_SIG, 4);
    } else {
      ValueOfLE(CENTRAL_SIG, 4);
      var c := Index(es, 0)[0];
      assert CentralBytes(c)[..4] == LE(CENTRAL_SIG, 4);
      assert CentralDirectory(es)[..4] == CentralBytes(c)[..4];
      assert s[..4] == CentralDirectory(es)[..4];
    }
  }

  lemma ExtractTrailer(tail: seq<u8>, t: Tree)
    requires StartsTrailer(tail)
    ensures Extract(tail, t) == Finished(t, tail[4..])
  {
    hide ReadEntry;
  }

  lemma EntriesFirst(es: seq<Entry>, offset: nat, tail: seq<u8>)
    requires es != []
    ensures var b := EntryBytes(es[0], offset);
            Entries(es, offset) + tail == b + (Entries(es[1..], offset + |b|) + tail)
  {
    hide EntryBytes;
  }

  lemma FirstWritten(es: seq<Entry>)
    requires AllWritten(es) && es != []
    ensures Written(es[0])
  {
    hide Written;
  }

  /** Reading the first of several entries. */
  lemma ExtractFirst(es: seq<Entry>, offset: nat, t: Tree, tail: seq<u8>)
    requires AllWritten(es) && es != [] && HasRoom(t, es[0])
    ensures Extract(Entries(es, offset) + tail, t) ==
            if Ambiguous(es[0], offset) then Failed(t, Zip64Missing)
            else Extract(Entries(es[1..], offset + |EntryBytes(es[0], offset)|) + tail, AddFile(t, es[0]))
  {
    FirstWritten(es);
    hide *;
    var b := EntryBytes(es[0], offset);
    var rest := Entries(es[1..], offset + |b|) + tail;
    assert Entries(es, offset) + tail == b + rest by {
      EntriesFirst(es, offset, tail);
    }
    ExtractOne(es[0], b, offset, t, rest);
  }

  lemma ExtractOne(e: Entry, b: seq<u8>, offset: nat, t: Tree, rest: seq<u8>)
    requires Written(e) && HasRoom(t, e) && b == EntryBytes(e, offset)
    ensures Extract(b + rest, t) ==
            if Ambiguous(e, offset) then Failed(t, Zip64Missing) else Extract(rest, AddFile(t, e))
  {
    hide *;
    EntryRoundTrip(e, offset, t, rest);
    ExtractUnfolds(b + rest, t);
  }

  lemma ExtractUnfolds(s: seq<u8>, t: Tree)
    ensures match ReadStep(s, t)
            case Halt(o) => Extract(s, t) == o
            case Next(t1, rest) => Extract(s, t) == Extract(rest, t1)
  {
    hide ReadStep;
  }

  /** Reading entries, whatever bytes follow. */
  lemma {:induction false} ExtractBehind(es: seq<Entry>, offset: nat, t: Tree, tail: seq<u8>)
    requires AllWritten(es) && Fits(t, es)
    ensures Extract(Entries(es, offset) + tail, t) ==
            if Unambiguous(es, offset) then Extract(tail, AddFiles(t, es))
            else Failed(AddFiles(t, es[..UpToAmbiguous(es, offset)]), Zip64Missing)
    decreases es
  {
    if es == [] {
      hide Extract;
      assert Entries(es, offset) + tail == tail;
    } else {
      var n := UpToAmbiguous(es, offset);
      hide *;
      EntriesUnfold(es, offset, t);
      ExtractFirst(es, offset, t, tail);
      if n > 0 {
        FitsNext(t, es);
        ExtractBehind(es[1..], offset + |EntryBytes(es[0], offset)|, AddFile(t, es[0]), tail);
        AddFilesPrefix(t, es, n);
      } else {
        AddNone(t, es);
      }
    }
  }

  /** Reading the entries of an archive, whatever trailer follows. */
  lemma ExtractEntries(es: seq<Entry>, offset: nat, t: Tree, tail: seq<u8>)
    requires AllWritten(es) && Fits(t, es) && StartsTrailer(tail)
    ensures Extract(Entries(es, offset) + tail, t) ==
            if Unambiguous(es, offset) then Finished(AddFiles(t, es), tail[4..])
            else Failed(AddFiles(t, es[..UpToAmbiguous(es, offset)]), Zip64Missing)
  {
    hide *;
    ExtractBehind(es, offset, t, tail);
    if Unambiguous(es, offset) {
      ExtractTrailer(tail, AddFiles(t, es));
    }
  }

  lemma EntriesUnfold(es: seq<Entry>, offset: nat, t: Tree)
    requires AllWritten(es) && es != [] && Fits(t, es)
    ensures HasRoom(t, es[0]) && AllWritten(es[1..])
    ensures AddFiles(t, es) == AddFiles(AddFile(t, es[0]), es[1..])
    ensures var next := offset + |EntryBytes(es[0], offset)|;
            && (Unambiguous(es, offset) <==> !Ambiguous(es[0], offset) && Unambiguous(es[1..], next))
            && UpToAmbiguous(es, offset) ==
               if Ambiguous(es[0], offset) then 0 else 1 + UpToAmbiguous(es[1..], next)
  {
    hide EntryBytes;
    hide Written;
    hide Place;
  }

  lemma AddFilesPrefix(t: Tree, es: seq<Entry>, n: nat)
    requires AllWritten(es) && 0 < n <= |es|
    ensures AllWritten(es[..n]) && AllWritten(es[1..]) && AllWritten(es[1..][..n - 1])
    ensures AddFiles(t, es[..n]) == AddFiles(AddFile(t, es[0]), es[1..][..n - 1])
  {
    hide Written;
    hide AddFile;
    assert es[..n][1..] == es[1..][..n - 1];
  }

  lemma AddNone(t: Tree, es: seq<Entry>)
    ensures AllWritten(es[..0]) && AddFiles(t, es[..0]) == t
  {
  }

  /** The map after storing the values one by one. */
  function Stored<K, V>(m: map<K, V>, keys: seq<K>, vals: seq<V>): map<K, V>
    requires |keys| == |vals|
    decreases keys
  {
    if keys == [] then m else Stored(m[keys[0] := vals[0]], keys[1..], vals[1..])
  }

  lemma {:induction false} StoredAll<K, V>(m: map<K, V>, keys: seq<K>, vals: seq<V>)
    requires |keys| == |vals|
    requires forall i, j :: 0 <= i < j < |keys| ==> keys[i] != keys[j]
    ensures forall i :: 0 <= i < |keys| ==>
              keys[i] in Stored(m, keys, vals) && Stored(m, keys, vals)[keys[i]] == vals[i]
    ensures forall k :: k in Stored(m, keys, vals) <==> k in m || k in keys
    ensures forall k :: k in m && k !in keys ==> Stored(m, keys, vals)[k] == m[k]
    decreases keys
  {
    if keys != [] {
      StoredAll(m[keys[0] := vals[0]], keys[1..], vals[1..]);
      assert forall i :: 1 <= i < |keys| ==> keys[i] == keys[1..][i - 1] && vals[i] == vals[1..][i - 1];
    }
  }

  function Paths(es: seq<Entry>): (p: seq<Path>)
    requires AllWritten(es)
    ensures |p| == |es| && forall i :: 0 <= i < |es| ==> p[i] == PathOf(es[i])
  {
    if es == [] then [] else [PathOf(es[0])] + Paths(es[1..])
  }

  function Contents(es: seq<Entry>): (d: seq<seq<u8>>)
    ensures |d| == |es| && forall i :: 0 <= i < |es| ==> d[i] == es[i].data
  {
    if es == [] then [] else [es[0].data] + Contents(es[1..])
  }

  lemma {:induction false} AddedFiles(t: Tree, es: seq<Entry>)
    requires AllWritten(es)
    ensures AddFiles(t, es).files == Stored(t.files, Paths(es), Contents(es))
    decreases es
  {
    hide Written;
    hide PathOf;
    if es != [] {
      AddedFiles(AddFile(t, es[0]), es[1..]);
    }
  }

  /** The files come from one directory tree: no path is a file and a directory. */
  predicate TreeLike(files: seq<SourceFile>) {
    forall i, j :: 0 <= i < |files| && 0 <= j < |files| && i != j ==>
      !(Normals(files[i].rel) <= Normals(files[j].rel))
  }

  lemma {:induction false} EntriesOfFiles(files: seq<SourceFile>)
    requires ToEntries(files).Ok?
    ensures var es := ToEntries(files).value;
            && AllWritten(es)
            && forall i :: 0 <= i < |files| ==>
                 && ToEntry(files[i]) == Ok(es[i])
                 && PathOf(es[i]) == Normals(files[i].rel) && Normals(files[i].rel) != []
                 && |files[i].disk.value| >= files[i].size
                 && es[i].data == files[i].disk.value[..files[i].size]
  {
    if files != [] {
      EntriesOfFiles(files[1..]);
      NameRoundTrip(files[0].rel);
    }
  }

  lemma EntriesFit(files: seq<SourceFile>)
    requires ToEntries(files).Ok? && TreeLike(files)
    ensures var es := ToEntries(files).value; AllWritten(es) && Fits(EMPTY, es)
  {
    EntriesOfFiles(files);
  }

  /** `t` holds the files and nothing else, each at its own path with its own bytes. */
  predicate HoldsExactly(t: Tree, files: seq<SourceFile>) {
    && (forall p :: p in t.files ==> exists i :: 0 <= i < |files| && Normals(files[i].rel) == p)
    && forall i :: 0 <= i < |files| ==>
         && files[i].disk.Some? && files[i].size <= |files[i].disk.value|
         && Normals(files[i].rel) in t.files
         && t.files[Normals(files[i].rel)] == files[i].disk.value[..files[i].size]
  }

  /** The first `k` files give the first `k` entries. */
  lemma {:induction false} FirstEntries(files: seq<SourceFile>, k: nat)
    requires ToEntries(files).Ok? && k <= |files|
    ensures ToEntries(files[..k]) == Ok(ToEntries(files).value[..k])
  {
    hide ToEntry;
    if k > 0 {
      FirstEntries(files[1..], k - 1);
      assert files[..k][1..] == files[1..][..k - 1];
      var rest := ToEntries(files[1..]).value;
      assert ([ToEntry(files[0]).value] + rest)[..k] == [ToEntry(files[0]).value] + rest[..k - 1];
    }
  }

  lemma FirstTreeLike(files: seq<SourceFile>, k: nat)
    requires TreeLike(files) && k <= |files|
    ensures TreeLike(files[..k])
  {
    hide Normals;
  }

  /**
   * Round trip, on every list of files the writer accepts: extraction succeeds exactly
   * when no size is ambiguous. It then gives back the same files and stops four bytes
   * into the central directory; otherwise it stops at the first ambiguous entry, with
   * exactly the files before it restored.
   */
  lemma RoundTrip(files: seq<SourceFile>)
    requires ToEntries(files).Ok? && TreeLike(files)
    ensures var es := ToEntries(files).value;
            var outcome := Extract(Archive(es), EMPTY);
            && (outcome.Finished? <==> Unambiguous(es, 0))
            && (outcome.Finished? ==>
                  HoldsExactly(outcome.tree, files) && outcome.rest == Archive(es)[DirectoryOffset(es) + 4..])
            && (outcome.Failed? ==>
                  && outcome.error == Zip64Missing
                  && HoldsExactly(outcome.tree, files[..UpToAmbiguous(es, 0)]))
  {
    hide *;
    var es := ToEntries(files).value;
    var k := UpToAmbiguous(es, 0);
    EntriesFit(files);
    ExtractArchive(es);
    RestoredFiles(files);
    FirstEntries(files, k);
    FirstTreeLike(files, k);
    RestoredFiles(files[..k]);
  }

  lemma ArchiveParts(es: seq<Entry>)
    ensures Archive(es) == Entries(es, 0) + Trailer(es) && DirectoryOffset(es) == |Entries(es, 0)|
  {
    hide Entries;
    hide Trailer;
  }

  lemma ExtractArchive(es: seq<Entry>)
    requires AllWritten(es) && Fits(EMPTY, es)
    ensures Extract(Archive(es), EMPTY) ==
            if Unambiguous(es, 0) then Finished(AddFiles(EMPTY, es), Archive(es)[DirectoryOffset(es) + 4..])
            else Failed(AddFiles(EMPTY, es[..UpToAmbiguous(es, 0)]), Zip64Missing)
  {
    hide *;
    var at, trailer := DirectoryOffset(es), Trailer(es);
    ArchiveParts(es);
    TrailerStarts(es);
    ExtractEntries(es, 0, EMPTY, trailer);
    assert Archive(es)[at + 4..] == trailer[4..];
  }

  lemma RestoredFiles(files: seq<SourceFile>)
    requires ToEntries(files).Ok? && TreeLike(files)
    ensures var es := ToEntries(files).value; AllWritten(es) && HoldsExactly(AddFiles(EMPTY, es), files)
  {
    var es := ToEntries(files).value;
    EntriesOfFiles(files);
    AddedFiles(EMPTY, es);
    StoredPaths(files, Paths(es), Contents(es), AddFiles(EMPTY, es));
  }

  lemma StoredPaths(files: seq<SourceFile>, paths: seq<Path>, contents: seq<seq<u8>>, t: Tree)
    requires TreeLike(files) && |files| == |paths| == |contents|
    requires forall i :: 0 <= i < |files| ==>
               && paths[i] == Normals(files[i].rel)
               && files[i].disk.Some? && files[i].size <= |files[i].disk.value|
               && contents[i] == files[i].disk.value[..files[i].size]
    requires t.files == Stored(EMPTY.files, paths, contents)
    ensures HoldsExactly(t, files)
  {
    hide Normals;
    assert forall i, j :: 0 <= i < j < |paths| ==> !(paths[i] <= paths[j]);
    StoredAll(EMPTY.files, paths, contents);
    hide Stored;
    hide HoldsExactly;
    StoredExactly(files, paths, contents, t);
  }

  lemma StoredExactly(files: seq<SourceFile>, paths: seq<Path>, contents: seq<seq<u8>>, t: Tree)
    requires |files| == |paths| == |contents|
    requires forall i :: 0 <= i < |files| ==>
               && paths[i] == Normals(files[i].rel)
               && files[i].disk.Some? && files[i].size <= |files[i].disk.value|
               && contents[i] == files[i].disk.value[..files[i].size]
    requires forall i :: 0 <= i < |paths| ==> paths[i] in t.files && t.files[paths[i]] == contents[i]
    requires forall p :: p in t.files ==> p in paths
    ensures HoldsExactly(t, files)
  {
    hide Normals;
    forall p | p in t.files
      ensures exists i :: 0 <= i < |files| && Normals(files[i].rel) == p
    {
      var i :| 0 <= i < |paths| && paths[i] == p;
      assert Normals(files[i].rel) == p;
    }
  }
}

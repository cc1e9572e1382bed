/** One part on its way to the store and back: `write_zip` into a pipe, multipart upload, extraction. */
module PartUpload {
  import opened Wrappers
  import opened Bytes
  import opened Streams
  import opened Dest
  import opened Multipart
  import opened ChunkSize
  import opened ZipFormat
  import opened ZipReader
  import opened ZipWriter
  import opened ZipTheorems
  import opened ZipTruncation
  import opened ZipPrefix
  import opened ZipFailure
  import opened ZipPath

  datatype PartError = TransferFailed(upload: UploadError) | ZipFailed(write: WriteError) | ShortTransfer

  /**
   * What decides the outcome of an upload: how many of the emitted bytes come through the
   * pipe, and whether the completion of the multipart upload takes effect. The pipe is inside
   * the process and delivers them all before it ends, so a completed object has all of them;
   * what follows needs that only where `AllArrived` says so.
   */
  datatype Transfer = Transfer(arrived: nat, joined: bool)

  predicate AllArrived(files: seq<SourceFile>, t: Transfer) { t.arrived == |Emitted(files)| }

  /** The object under the key afterwards. */
  function After(files: seq<SourceFile>, t: Transfer, before: Option<seq<u8>>): Option<seq<u8>>
    requires t.arrived <= |Emitted(files)|
  {
    if t.joined then Some(Emitted(files)[..t.arrived]) else before
  }

  /** Every file could be archived, and all that was emitted arrived. */
  predicate Whole(files: seq<SourceFile>, t: Transfer) {
    ToEntries(files).Ok? && t.arrived == |Emitted(files)|
  }

  /** The outcomes of an upload: success is reported only of a whole object that is in place. */
  predicate Outcome(files: seq<SourceFile>, t: Transfer, before: Option<seq<u8>>, after: Option<seq<u8>>,
                    r: Result<nat, PartError>)
  {
    && t.arrived <= |Emitted(files)| && (t.joined ==> t.arrived > 0)
    && after == After(files, t, before)
    && (r.Ok? ==> t.joined && Whole(files, t) && r.value == t.arrived)
    && (r.Err? && r.error.ZipFailed? ==> ToEntries(files) == Err(r.error.write) && t.joined)
    && (r.Err? && r.error.ShortTransfer? ==> !Whole(files, t) && t.joined)
  }

  /** How many of `n` bytes come through the pipe: all, or as many as before a break. */
  function Delivered(n: nat, broken: Option<nat>): (arrived: nat)
    ensures arrived <= n
  {
    if broken.Some? && broken.value < n then broken.value else n
  }

  /** The pipe and the upload behind it: what comes through is stored, or not. */
  method Send(target: Target, pipe: Source, bytes: seq<u8>, expected: nat, l: Limits, broken: Option<nat>)
      returns (r: Result<nat, UploadError>, ghost t: Transfer)
    requires target.parts == map[] && l.concurrency >= 1 && l.minChunk > 0 && l.maxChunk > 0
    modifies target, pipe
    ensures t.arrived == Delivered(|bytes|, broken) && (t.joined ==> t.arrived > 0)
    ensures target.stored == if t.joined then Some(bytes[..t.arrived]) else old(target.stored)
    ensures r.Ok? ==> t.joined && r.value == t.arrived
    ensures target.faults >= old(target.faults) && pipe.faults >= old(pipe.faults)
    ensures r.Ok? <==>
              target.faults == old(target.faults) && pipe.faults == old(pipe.faults) && t.arrived > 0
    ensures r.Ok? ==> PartsStored(Cut(bytes[..t.arrived], ChunkFor(expected, l), 1), target.parts)
  {
    hide *;
    var arrived := Delivered(|bytes|, broken);
    pipe.rest := bytes[..arrived];
    ChunkPositive(expected, l);
    var reader := new Reader(pipe, ChunkFor(expected, l));
    ghost var peak;
    r, peak := PutObjectMultipartReader(target, reader, l.concurrency);
    t := Transfer(arrived, target.stored == Some(bytes[..arrived]) && arrived > 0);
  }

  /**
   * The upload of one staged part in `upload_part_archives`: it succeeds exactly when no request
   * and no read of the pipe fails, every file can be archived and everything arrives; the parts
   * are cut by the estimated size. Even a pipe that broke at any point, which the reader would
   * see as the end of the stream, would be told from the sizes.
   */
  method UploadPart(target: Target, pipe: Source, files: seq<SourceFile>, l: Limits, broken: Option<nat>)
      returns (r: Result<nat, PartError>, ghost t: Transfer)
    requires target.parts == map[] && l.concurrency >= 1 && l.minChunk > 0 && l.maxChunk > 0
    modifies target, pipe
    ensures Outcome(files, t, old(target.stored), target.stored, r)
    ensures t.arrived == Delivered(|Emitted(files)|, broken)
    ensures target.faults >= old(target.faults) && pipe.faults >= old(pipe.faults)
    ensures r.Ok? <==>
              target.faults == old(target.faults) && pipe.faults == old(pipe.faults) && Whole(files, t)
    ensures r.Ok? ==> PartsStored(Cut(Emitted(files), ChunkFor(Estimate(files), l), 1), target.parts)
  {
    hide *;
    ghost var before := target.stored;
    var expected := EstimateZipSize(files);
    var sink := new Sink();
    var written := WriteZip(sink, files);
    assert sink.bytes == Emitted(files);
    var uploaded;
    uploaded, t := Send(target, pipe, sink.bytes, expected, l, broken);
    WholeMeans(files, t);
    if uploaded.Err? {
      r := Err(TransferFailed(uploaded.error));
      IsOutcome(files, t, before, target.stored, r);
      return;
    }
    if written.Err? {
      r := Err(ZipFailed(written.error));
      IsOutcome(files, t, before, target.stored, r);
      return;
    }
    r := if uploaded.value != written.value then Err(ShortTransfer) else Ok(uploaded.value);
    IsOutcome(files, t, before, target.stored, r);
    assert r.Ok? ==> Emitted(files)[..t.arrived] == Emitted(files);
  }

  lemma WholeMeans(files: seq<SourceFile>, t: Transfer)
    ensures Whole(files, t) <==> ToEntries(files).Ok? && t.arrived == |Emitted(files)|
    ensures ToEntries(files).Ok? ==> |Emitted(files)| > 0
  {
    hide ToEntries;
    if ToEntries(files).Ok? {
      var es := ToEntries(files).value;
      EndLengths(|es|, |CentralDirectory(es)|, DirectoryOffset(es));
      hide EndRecord;
      hide End64Records;
      hide Entries;
      hide Central;
    }
  }

  lemma IsOutcome(files: seq<SourceFile>, t: Transfer, before: Option<seq<u8>>, after: Option<seq<u8>>,
                  r: Result<nat, PartError>)
    requires t.arrived <= |Emitted(files)| && (t.joined ==> t.arrived > 0)
    requires after == if t.joined then Some(Emitted(files)[..t.arrived]) else before
    requires match r
             case Ok(n) => t.joined && ToEntries(files).Ok? && n == t.arrived == |Emitted(files)|
             case Err(TransferFailed(_)) => true
             case Err(ZipFailed(e)) => t.joined && ToEntries(files) == Err(e)
             case Err(ShortTransfer) => t.joined && t.arrived != |Emitted(files)|
    ensures Outcome(files, t, before, after, r)
  {
    hide ToEntries;
    hide Emitted;
  }

  // ---- What an upload leaves ----

  /**
   * Afterwards the object is as it was, or the complete archive of the files, exactly when
   * the completion took no effect, or everything could be archived and arrived; or the
   * same incomplete bytes stood there before.
   */
  lemma IntactExactly(files: seq<SourceFile>, t: Transfer, before: Option<seq<u8>>)
    requires t.arrived <= |Emitted(files)|
    ensures var after := After(files, t, before);
            (after == before || (after.Some? && IsArchive(after.value, files)))
            <==> !t.joined || Whole(files, t) || before == Some(Emitted(files)[..t.arrived])
  {
    hide ToEntries;
    CompleteExactly(files, t.arrived, files);
  }

  /** What a completion puts in place is the archive of any list of files only when it is whole. */
  lemma WholeExactly(files: seq<SourceFile>, t: Transfer, before: Option<seq<u8>>, other: seq<SourceFile>)
    requires t.arrived <= |Emitted(files)| && t.joined
    ensures IsArchive(After(files, t, before).value, other)
            <==> Whole(files, t) && ToEntries(files) == ToEntries(other)
  {
    hide ToEntries;
    CompleteExactly(files, t.arrived, other);
  }

  /**
   * A writer that fails behind its first bytes can leave them as the object: no archive of
   * anything, although the failure is reported.
   */
  lemma FailedWriterLeavesPart(files: seq<SourceFile>, before: Option<seq<u8>>)
    requires ToEntries(files).Err? && Emitted(files) != []
    ensures var t := Transfer(|Emitted(files)|, true);
            && Outcome(files, t, before, Some(Emitted(files)), Err(ZipFailed(ToEntries(files).error)))
            && forall other :: !IsArchive(Emitted(files), other)
  {
    hide ToEntries;
    assert Emitted(files)[..|Emitted(files)|] == Emitted(files);
    forall other
      ensures !IsArchive(Emitted(files), other)
    {
      CompleteExactly(files, |Emitted(files)|, other);
    }
  }

  /**
   * With the pipe as it is, an upload spoils the object exactly when some file cannot be
   * archived and the completion takes effect all the same.
   */
  lemma SpoiltExactly(files: seq<SourceFile>, t: Transfer, before: Option<seq<u8>>)
    requires AllArrived(files, t)
    ensures var after := After(files, t, before);
            (after == before || (after.Some? && IsArchive(after.value, files)))
            <==> !t.joined || ToEntries(files).Ok? || before == Some(Emitted(files))
  {
    hide ToEntries;
    assert Emitted(files)[..|Emitted(files)|] == Emitted(files);
    IntactExactly(files, t, before);
  }

  /**
   * What a failed writer can leave as the object extracts without an error exactly when the
   * first file that fails fails on its name, and no size before it is ambiguous; the files
   * before it are then all that comes back.
   */
  lemma LossIsSilentExactly(files: seq<SourceFile>, before: Option<seq<u8>>)
    requires ToEntries(files).Err? && TreeLike(files) && Emitted(files) != []
    ensures var t := Transfer(|Emitted(files)|, true);
            var k := Failing(files);
            && AllArrived(files, t)
            && Outcome(files, t, before, Some(Emitted(files)), Err(ZipFailed(ToEntries(files).error)))
            && ToEntries(files[..k]).Ok?
            && var outcome := Extract(Emitted(files), EMPTY);
               && (outcome.Finished? <==>
                     ToEntries(files).error.BadName? && Unambiguous(ToEntries(files[..k]).value, 0))
               && (outcome.Finished? ==> HoldsExactly(outcome.tree, files[..k]) && k < |files|)
  {
    hide *;
    FailureExtracts(files);
    FailedOutcome(files, before);
  }

  lemma FailedOutcome(files: seq<SourceFile>, before: Option<seq<u8>>)
    requires ToEntries(files).Err? && Emitted(files) != []
    ensures var t := Transfer(|Emitted(files)|, true);
            && AllArrived(files, t)
            && Outcome(files, t, before, Some(Emitted(files)), Err(ZipFailed(ToEntries(files).error)))
  {
    hide ToEntries;
    hide Emitted;
    assert Emitted(files)[..|Emitted(files)|] == Emitted(files);
  }

  /**
   * A case of it: behind good files, one whose name the writer refuses. Whatever follows, the
   * object extracts to the good files, without an error.
   */
  lemma RefusedNameLosesFiles(files: seq<SourceFile>, bad: SourceFile, rest: seq<SourceFile>)
    requires files != [] && ToEntries(files).Ok? && ZipName(bad.rel).Err?
    requires TreeLike(files) && Unambiguous(ToEntries(files).value, 0)
    ensures var all := files + [bad] + rest;
            && ToEntries(all).Err? && Emitted(all) != []
            && Extract(Emitted(all), EMPTY).Finished?
            && HoldsExactly(Extract(Emitted(all), EMPTY).tree, files)
  {
    hide *;
    var all := files + [bad] + rest;
    RefusedName(bad);
    FirstRefused(files, bad, rest, 0);
    EmittedOnFailure(all);
    FilesEmitNonEmpty(files);
    var es := ToEntries(files).value;
    EntriesFit(files);
    RestoredFiles(files);
    ExtractBehind(es, 0, EMPTY, []);
    assert Entries(es, 0) + [] == Entries(es, 0);
    ShortInput([], AddFiles(EMPTY, es));
  }

  lemma RefusedName(bad: SourceFile)
    requires ZipName(bad.rel).Err?
    ensures ToEntry(bad).Err? && forall offset :: Partial(bad, offset) == []
  {
  }

  lemma {:induction false} FirstRefused(files: seq<SourceFile>, bad: SourceFile, rest: seq<SourceFile>, offset: nat)
    requires ToEntries(files).Ok? && ToEntry(bad).Err? && forall at :: Partial(bad, at) == []
    ensures var all := files + [bad] + rest;
            ToEntries(all).Err? && EmittedFrom(all, offset) == Entries(ToEntries(files).value, offset)
    decreases files
  {
    hide ToEntry;
    hide EntryBytes;
    hide Partial;
    var all := files + [bad] + rest;
    if files == [] {
      assert all[0] == bad;
    } else {
      var e := ToEntry(files[0]).value;
      FirstRefused(files[1..], bad, rest, offset + |EntryBytes(e, offset)|);
      assert all[0] == files[0] && all[1..] == files[1..] + [bad] + rest;
      assert ToEntries(files).value[1..] == ToEntries(files[1..]).value;
    }
  }

  lemma FilesEmitNonEmpty(files: seq<SourceFile>)
    requires files != [] && ToEntries(files).Ok?
    ensures Entries(ToEntries(files).value, 0) != []
  {
    var es := ToEntries(files).value;
    EntryLength(es[0], 0);
    hide EntryBytes;
    hide ToEntries;
  }

  lemma ChunkPositive(expected: nat, l: Limits)
    requires l.minChunk > 0 && l.maxChunk > 0
    ensures ChunkFor(expected, l) > 0
  {
  }

  /**
   * What comes back from the store, for every way of reading it: without a failed request or
   * read, and with files that can be archived, exactly the files, unless a size is ambiguous.
   */
  method UploadThenExtract(target: Target, pipe: Source, files: seq<SourceFile>, l: Limits)
      returns (r: Option<Result<(), ZipError>>, d: Directory)
    requires TreeLike(files) && l.concurrency >= 1 && l.minChunk > 0 && l.maxChunk > 0
    requires target.parts == map[]
    modifies target, pipe
    ensures fresh(d)
    ensures r.Some? <==>
              ToEntries(files).Ok? && target.faults == old(target.faults) && pipe.faults == old(pipe.faults)
    ensures r.Some? ==>
              && ToEntries(files).Ok?
              && (r.value.Ok? <==> Unambiguous(ToEntries(files).value, 0))
              && (r.value.Ok? ==> HoldsExactly(d.tree, files))
  {
    hide ToEntries;
    hide Emitted;
    hide Archive;
    hide HoldsExactly;
    hide Extract;
    hide Unambiguous;
    hide TreeLike;
    ghost var before := target.stored;
    d := new Directory();
    var size;
    ghost var t;
    size, t := UploadPart(target, pipe, files, l, None);
    WholeMeans(files, t);
    if size.Err? {
      return None, d;
    }
    WholeExactly(files, t, before, files);
    RoundTrip(files);
    var source := new Source(target.stored.value);
    var extracted := ExtractZip(source, d);
    r := Some(extracted);
  }
}

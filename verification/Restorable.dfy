/**
 * The promise of the whole: every part of every manifest can be restored. Which snapshot
 * runs keep it, that garbage collection keeps it, and runs that break it.
 */
module Restorable {
  import opened Wrappers
  import opened Bytes
  import opened Dest
  import opened ZipFormat
  import opened ZipReader
  import opened ZipWriter
  import opened ZipTheorems
  import opened ZipPrefix
  import opened ZipFailure
  import opened PartUpload
  import opened Snapshot
  import GcStore
  import GcSafety

  /** The blob is there, whole, and of the listed size; `content` says which files a hash stands for. */
  ghost predicate PartSound(content: Dirs, blobs: Blobs, part: ManifestPart) {
    && part.blobHash in content && part.blobHash in blobs
    && IsArchive(blobs[part.blobHash], content[part.blobHash]) && part.blobSize == |blobs[part.blobHash]|
  }

  ghost predicate ListSound(content: Dirs, blobs: Blobs, parts: seq<ManifestPart>) {
    forall i :: 0 <= i < |parts| ==> PartSound(content, blobs, parts[i])
  }

  /** Every part of every manifest can be restored. */
  ghost predicate Restorable(content: Dirs, blobs: Blobs, manifests: Manifests) {
    forall n :: n in manifests ==> ListSound(content, blobs, manifests[n])
  }

  /** What it means: a part extracts to exactly its files, exactly when no size is ambiguous. */
  lemma PartRestores(content: Dirs, blobs: Blobs, manifests: Manifests, n: Name, i: nat)
    requires Restorable(content, blobs, manifests) && n in manifests && i < |manifests[n]|
    requires TreeLike(content[manifests[n][i].blobHash])
    ensures var h := manifests[n][i].blobHash;
            && h in blobs && ToEntries(content[h]).Ok?
            && var outcome := Extract(blobs[h], EMPTY);
               && (outcome.Finished? <==> Unambiguous(ToEntries(content[h]).value, 0))
               && (outcome.Finished? ==> HoldsExactly(outcome.tree, content[h]))
  {
    assert PartSound(content, blobs, manifests[n][i]);
    var files := content[manifests[n][i].blobHash];
    assert IsArchive(blobs[manifests[n][i].blobHash], files);
    assert ToEntries(files).Ok?;
    hide ToEntries;
    hide Extract;
    hide HoldsExactly;
    hide Unambiguous;
    hide TreeLike;
    RoundTrip(files);
  }

  // ---- Snapshot runs ----

  ghost predicate NamedBy(parts: seq<ManifestPart>, h: Hash) {
    exists i :: 0 <= i < |parts| && parts[i].blobHash == h
  }

  ghost predicate Named(manifests: Manifests, h: Hash) {
    exists n :: n in manifests && NamedBy(manifests[n], h)
  }

  /** What was staged has the entries the hash stands for, and came through whole. */
  ghost predicate Faithful(content: Dirs, run: Run, h: Hash)
    requires h in run.transfers
  {
    && h in content && h in run.staged
    && Whole(run.staged[h], run.transfers[h]) && ToEntries(run.staged[h]) == ToEntries(content[h])
  }

  /** Every upload that takes effect over a blob some manifest names is faithful. */
  ghost predicate KeepsOld(content: Dirs, run: Run, manifests: Manifests) {
    forall h :: h in run.transfers && run.transfers[h].joined && Named(manifests, h) ==> Faithful(content, run, h)
  }

  /** What the run adds to the manifests is sound: its uploads are faithful, and what it skips is whole. */
  ghost predicate AddsSound(content: Dirs, run: Run, before: Blobs) {
    forall h :: h in Hashes(run.parts) ==> HashSound(content, run, before, h)
  }

  ghost predicate HashSound(content: Dirs, run: Run, before: Blobs, h: Hash) {
    && (h in run.transfers ==> Faithful(content, run, h))
    && (h in run.skipped ==> h in before && h in content && IsArchive(before[h], content[h]))
  }

  /** What an upload puts in place is an archive of what the hash stands for exactly when it is faithful. */
  lemma MovedExactly(content: Dirs, run: Run, before: Blobs, after: Blobs, h: Hash)
    requires Attempt(run, before, after) && h in run.transfers && run.transfers[h].joined
    ensures h in after
    ensures h in content && IsArchive(after[h], content[h]) <==> Faithful(content, run, h)
    ensures |after[h]| == run.transfers[h].arrived
  {
    hide Emitted;
    hide Whole;
    hide IsArchive;
    hide ToEntries;
    hide First;
    hide Hashes;
    var files, t := run.staged[h], run.transfers[h];
    assert Moved(before, after, files, t, h);
    if h in content {
      WholeExactly(files, t, Lookup(before, h), content[h]);
    }
  }

  lemma NotMoved(run: Run, before: Blobs, after: Blobs, h: Hash)
    requires Attempt(run, before, after) && (h in run.transfers ==> !run.transfers[h].joined)
    ensures Lookup(after, h) == Lookup(before, h)
  {
    hide Emitted;
    hide First;
    hide Hashes;
    if h in run.transfers {
      assert Moved(before, after, run.staged[h], run.transfers[h], h);
    } else {
      assert Untouched(before, after, h);
    }
  }

  /** An archive of the same files is the same blob. */
  lemma OldPart(content: Dirs, run: Run, before: Blobs, after: Blobs, part: ManifestPart)
    requires Attempt(run, before, after) && PartSound(content, before, part)
    ensures PartSound(content, after, part)
            <==> (part.blobHash in run.transfers && run.transfers[part.blobHash].joined
                  ==> Faithful(content, run, part.blobHash))
  {
    hide ToEntries;
    hide Archive;
    hide Attempt;
    hide Faithful;
    var h := part.blobHash;
    if h in run.transfers && run.transfers[h].joined {
      MovedExactly(content, run, before, after, h);
    } else {
      NotMoved(run, before, after, h);
    }
  }

  /** The manifests that were there stay sound exactly when no upload spoils a blob they name. */
  lemma OldManifests(content: Dirs, run: Run, before: Blobs, after: Blobs, manifests: Manifests)
    requires Attempt(run, before, after) && Restorable(content, before, manifests)
    ensures Restorable(content, after, manifests) <==> KeepsOld(content, run, manifests)
  {
    hide Attempt;
    hide Faithful;
    hide PartSound;
    if KeepsOld(content, run, manifests) {
      forall n, i | n in manifests && 0 <= i < |manifests[n]|
        ensures PartSound(content, after, manifests[n][i])
      {
        assert PartSound(content, before, manifests[n][i]);
        assert NamedBy(manifests[n], manifests[n][i].blobHash);
        OldPart(content, run, before, after, manifests[n][i]);
      }
    }
    if Restorable(content, after, manifests) {
      forall h | h in run.transfers && run.transfers[h].joined && Named(manifests, h)
        ensures Faithful(content, run, h)
      {
        var n :| n in manifests && NamedBy(manifests[n], h);
        var i :| 0 <= i < |manifests[n]| && manifests[n][i].blobHash == h;
        assert PartSound(content, before, manifests[n][i]) && PartSound(content, after, manifests[n][i]);
        OldPart(content, run, before, after, manifests[n][i]);
      }
    }
  }

  /** A known part is as sound as in the manifest it is known from. */
  lemma KnownPart(content: Dirs, run: Run, before: Blobs, after: Blobs, manifests: Manifests, part: ManifestPart)
    requires Attempt(run, before, after) && KnownFrom(run, manifests) && Restorable(content, before, manifests)
    requires part.blobHash in run.known && part.blobSize == run.known[part.blobHash]
    ensures PartSound(content, after, part)
  {
    var h, n := part.blobHash, run.latest.value;
    var i :| 0 <= i < |manifests[n]| && manifests[n][i].blobHash == h && manifests[n][i].blobSize == run.known[h];
    assert ListSound(content, before, manifests[n]);
    assert PartSound(content, before, manifests[n][i]);
    assert h !in run.transfers by {
      hide Moved;
      hide Untouched;
      hide Whole;
      hide First;
      hide Hashes;
      hide IsArchive;
    }
    hide Attempt;
    hide IsArchive;
    NotMoved(run, before, after, h);
  }

  /** A part the run adds is sound exactly when its upload is faithful, or what it skipped is whole. */
  lemma NewPart(content: Dirs, run: Run, before: Blobs, after: Blobs, part: ManifestPart)
    requires Attempt(run, before, after) && Done(run)
    requires part.blobHash in Hashes(run.parts) && part.blobHash !in run.known
    requires part.blobSize == SizesOf(run)[part.blobHash]
    ensures PartSound(content, after, part) <==> HashSound(content, run, before, part.blobHash)
  {
    var h := part.blobHash;
    hide Moved;
    hide Untouched;
    hide Whole;
    hide First;
    hide Hashes;
    hide IsArchive;
    hide Faithful;
    assert h in run.skipped <==> h !in run.transfers;
    if h in run.transfers {
      assert run.transfers[h].joined;
      MovedExactly(content, run, before, after, h);
    } else {
      NotMoved(run, before, after, h);
    }
  }

  lemma KnownIsSettled(content: Dirs, run: Run, before: Blobs, after: Blobs, h: Hash)
    requires Attempt(run, before, after) && h in run.known
    ensures HashSound(content, run, before, h)
    ensures Done(run) ==> SizesOf(run)[h] == run.known[h]
  {
    hide Moved;
    hide Untouched;
    hide Whole;
    hide First;
    hide Hashes;
    hide IsArchive;
    hide Faithful;
  }

  /** The `i`-th part of the new manifest is sound exactly when its hash is. */
  lemma AddedPart(content: Dirs, run: Run, before: Blobs, after: Blobs, manifests: Manifests,
                  listed: seq<ManifestPart>, i: nat)
    requires Attempt(run, before, after) && Done(run) && ListedWith(listed, run.parts, SizesOf(run))
    requires KnownFrom(run, manifests) && Restorable(content, before, manifests) && i < |listed|
    ensures PartSound(content, after, listed[i]) <==> HashSound(content, run, before, run.parts[i].hash)
  {
    hide Attempt;
    hide PartSound;
    hide HashSound;
    hide KnownFrom;
    hide Restorable;
    hide SizesOf;
    assert run.parts[i].hash in Hashes(run.parts);
    hide Hashes;
    if run.parts[i].hash in run.known {
      KnownIsSettled(content, run, before, after, run.parts[i].hash);
      KnownPart(content, run, before, after, manifests, listed[i]);
    } else {
      NewPart(content, run, before, after, listed[i]);
    }
  }

  lemma NewManifest(content: Dirs, run: Run, before: Blobs, after: Blobs, manifests: Manifests,
                    listed: seq<ManifestPart>)
    requires Attempt(run, before, after) && Done(run) && ListedWith(listed, run.parts, SizesOf(run))
    requires KnownFrom(run, manifests) && Restorable(content, before, manifests)
    ensures ListSound(content, after, listed) <==> AddsSound(content, run, before)
  {
    hide *;
    if AddsSound(content, run, before) {
      forall i | 0 <= i < |listed|
        ensures PartSound(content, after, listed[i])
      {
        ListedHash(listed, run.parts, SizesOf(run), i);
        AddsHash(content, run, before, run.parts[i].hash);
        AddedPart(content, run, before, after, manifests, listed, i);
      }
      AllSound(content, after, listed);
    }
    if ListSound(content, after, listed) {
      forall h | h in Hashes(run.parts)
        ensures HashSound(content, run, before, h)
      {
        var i := HashAt(listed, run.parts, SizesOf(run), h);
        SoundAt(content, after, listed, i);
        AddedPart(content, run, before, after, manifests, listed, i);
      }
      AllHashes(content, run, before);
    }
  }

  lemma ListedHash(listed: seq<ManifestPart>, parts: seq<PartInfo>, sizes: Sizes, i: nat)
    requires ListedWith(listed, parts, sizes) && i < |listed|
    ensures i < |parts| && parts[i].hash in Hashes(parts)
  {
  }

  lemma HashAt(listed: seq<ManifestPart>, parts: seq<PartInfo>, sizes: Sizes, h: Hash) returns (i: nat)
    requires ListedWith(listed, parts, sizes) && h in Hashes(parts)
    ensures i < |parts| == |listed| && parts[i].hash == h
  {
    i :| 0 <= i < |parts| && parts[i].hash == h;
  }

  lemma AddsHash(content: Dirs, run: Run, before: Blobs, h: Hash)
    requires AddsSound(content, run, before) && h in Hashes(run.parts)
    ensures HashSound(content, run, before, h)
  {
  }

  lemma AllHashes(content: Dirs, run: Run, before: Blobs)
    requires forall h :: h in Hashes(run.parts) ==> HashSound(content, run, before, h)
    ensures AddsSound(content, run, before)
  {
  }

  lemma SoundAt(content: Dirs, blobs: Blobs, parts: seq<ManifestPart>, i: nat)
    requires ListSound(content, blobs, parts) && i < |parts|
    ensures PartSound(content, blobs, parts[i])
  {
  }

  lemma AllSound(content: Dirs, blobs: Blobs, parts: seq<ManifestPart>)
    requires forall i :: 0 <= i < |parts| ==> PartSound(content, blobs, parts[i])
    ensures ListSound(content, blobs, parts)
  {
  }

  /**
   * A snapshot run keeps the promise exactly when every upload that takes effect over a blob
   * some manifest names comes through whole from what the hash stands for; and, if it writes
   * its manifest, so does every upload, and every blob it skipped is whole.
   */
  lemma SnapshotKeepsExactly(content: Dirs, run: Run, name: Name, before: Blobs, after: Blobs,
                             manifests: Manifests, manifestsAfter: Manifests,
                             r: Result<seq<ManifestPart>, SnapshotError>)
    requires Attempt(run, before, after) && Ending(run, name, manifests, manifestsAfter, r)
    requires KnownFrom(run, manifests) && Restorable(content, before, manifests)
    ensures Restorable(content, after, manifestsAfter) <==>
              KeepsOld(content, run, manifests)
              && (manifestsAfter != manifests ==> AddsSound(content, run, before))
  {
    OldManifests(content, run, before, after, manifests);
    if manifestsAfter != manifests {
      EndingWritten(run, name, manifests, manifestsAfter, r);
      var listed := manifestsAfter[name];
      assert name !in manifests && manifestsAfter == manifests[name := listed];
      hide *;
      NewManifest(content, run, before, after, manifests, listed);
      OneMore(content, after, manifests, name, listed);
    }
  }

  lemma OneMore(content: Dirs, blobs: Blobs, manifests: Manifests, name: Name, listed: seq<ManifestPart>)
    requires name !in manifests
    ensures Restorable(content, blobs, manifests[name := listed])
            <==> Restorable(content, blobs, manifests) && ListSound(content, blobs, listed)
  {
    hide ListSound;
    var more := manifests[name := listed];
    if Restorable(content, blobs, more) {
      assert ListSound(content, blobs, more[name]);
      forall n | n in manifests
        ensures ListSound(content, blobs, manifests[n])
      {
        assert more[n] == manifests[n];
      }
    }
  }

  // ---- Runs that break it ----

  /** A part of a table, large enough to be looked for with HEAD or not. */
  function PartOf(h: Hash, bytes: nat): PartInfo { PartInfo([], [], [], h, bytes) }

  /** A run over one part that has to be uploaded; its upload goes as `t` says and is not successful. */
  function FailingRun(latest: Option<Name>, part: PartInfo, files: seq<SourceFile>, t: Transfer): Run {
    Run(latest, [part], [part], map[], map[], map[part.hash := files], map[part.hash := t], map[])
  }

  lemma FailingAttempt(latest: Option<Name>, part: PartInfo, files: seq<SourceFile>, t: Transfer, name: Name,
                       before: Blobs, manifests: Manifests)
    requires AllArrived(files, t) && t.arrived > 0 && t.joined
    ensures var run, after := FailingRun(latest, part, files, t), before[part.hash := Emitted(files)[..t.arrived]];
            Attempt(run, before, after) && Ending(run, name, manifests, manifests, Err(SnapshotError.UploadFailed))
  {
    hide Emitted;
    hide First;
    var run, after := FailingRun(latest, part, files, t), before[part.hash := Emitted(files)[..t.arrived]];
    assert Hashes(run.parts) == {part.hash} by {
      assert run.parts[0].hash == part.hash;
    }
    assert DirsOf(run) == map[part.hash := files];
    assert Moved(before, after, files, t, part.hash);
    forall h | h != part.hash
      ensures Untouched(before, after, h)
    {
    }
    assert part.hash !in run.uploaded && part.hash in run.transfers;
  }

  /**
   * A small part that an older manifest names and the latest does not is staged and uploaded
   * again. When one of its files cannot be archived this time, behind the first bytes, the
   * older snapshot has lost its blob.
   */
  lemma OverwritesOlder(h: Hash, files: seq<SourceFile>, staged: seq<SourceFile>, name: Name, older: Name, latest: Name)
    requires ToEntries(files).Ok? && ToEntries(staged).Err? && Emitted(staged) != [] && older != latest
    ensures var content, before := map[h := files], map[h := Emitted(files)];
            var manifests := map[older := [Listed(PartOf(h, 1), |Emitted(files)|)], latest := []];
            var t := Transfer(|Emitted(staged)|, true);
            var run := FailingRun(Some(latest), PartOf(h, 1), staged, t);
            var after := map[h := Emitted(staged)];
            && AllArrived(staged, t)
            && KnownFrom(run, manifests) && Restorable(content, before, manifests)
            && Attempt(run, before, after)
            && Ending(run, name, manifests, manifests, Err(SnapshotError.UploadFailed))
            && !Restorable(content, after, manifests)
  {
    hide *;
    var content, before := map[h := files], map[h := Emitted(files)];
    var manifests := map[older := [Listed(PartOf(h, 1), |Emitted(files)|)], latest := []];
    var t := Transfer(|Emitted(staged)|, true);
    var run, after := FailingRun(Some(latest), PartOf(h, 1), staged, t), map[h := Emitted(staged)];
    OlderStands(h, files, older, latest);
    FailingFacts(content, latest, h, staged, t, manifests);
    EverythingArrived(staged);
    FailingAttempt(Some(latest), PartOf(h, 1), staged, t, name, before, manifests);
    Replaced(h, Emitted(files), Emitted(staged));
    OldManifests(content, run, before, after, manifests);
    SpoilsNamed(content, run, manifests, h);
  }

  lemma Replaced(h: Hash, blob: seq<u8>, other: seq<u8>)
    ensures map[h := blob][h := other[..|other|]] == map[h := other]
  {
    assert other[..|other|] == other;
  }

  lemma EverythingArrived(files: seq<SourceFile>)
    requires Emitted(files) != []
    ensures AllArrived(files, Transfer(|Emitted(files)|, true))
  {
  }

  lemma FailingFacts(content: Dirs, latest: Name, h: Hash, staged: seq<SourceFile>, t: Transfer, manifests: Manifests)
    requires ToEntries(staged).Err? && t.joined && latest in manifests && manifests[latest] == []
    ensures var run := FailingRun(Some(latest), PartOf(h, 1), staged, t);
            && PartOf(h, 1).hash == h && KnownFrom(run, manifests)
            && h in run.transfers && run.transfers[h].joined && !Faithful(content, run, h)
  {
    var run := FailingRun(Some(latest), PartOf(h, 1), staged, t);
    assert run.staged[h] == staged;
    hide ToEntries;
    hide Emitted;
  }

  lemma SpoilsNamed(content: Dirs, run: Run, manifests: Manifests, h: Hash)
    requires Named(manifests, h) && h in run.transfers && run.transfers[h].joined && !Faithful(content, run, h)
    ensures !KeepsOld(content, run, manifests)
  {
    hide Faithful;
    hide Named;
  }

  /** The older snapshot, before the run. */
  lemma OlderStands(h: Hash, files: seq<SourceFile>, older: Name, latest: Name)
    requires ToEntries(files).Ok? && older != latest
    ensures var manifests := map[older := [Listed(PartOf(h, 1), |Emitted(files)|)], latest := []];
            Restorable(map[h := files], map[h := Emitted(files)], manifests) && Named(manifests, h)
  {
    EmittedWhole(files);
    hide ToEntries;
    hide Emitted;
    hide IsArchive;
    var content, before := map[h := files], map[h := Emitted(files)];
    var manifests := map[older := [Listed(PartOf(h, 1), |Emitted(files)|)], latest := []];
    assert ListSound(content, before, manifests[latest]);
    assert ListSound(content, before, manifests[older]);
    assert manifests[older][0].blobHash == h && NamedBy(manifests[older], h);
  }

  lemma EmittedWhole(files: seq<SourceFile>)
    requires ToEntries(files).Ok?
    ensures IsArchive(Emitted(files), files)
  {
    hide ToEntries;
    hide Archive;
  }

  /** A run over one part that HEAD finds. */
  function SkippingRun(part: PartInfo, size: nat): Run {
    Run(None, [part], [part], map[], map[part.hash := size], map[], map[], map[])
  }

  /**
   * A file that is shorter than it was leaves the beginning of an archive as the blob, and the
   * run fails. The next run finds the blob by HEAD, skips the part and writes its manifest: a
   * snapshot that cannot be restored, whatever the hash stands for.
   */
  lemma SkipsWhatFailureLeft(part: PartInfo, files: seq<SourceFile>, name: Name, next: Name)
    requires ToEntries(files).Err? && Emitted(files) != [] && part.bytesOnDisk >= HEAD_CHECK_THRESHOLD
    ensures var left := Emitted(files);
            var t := Transfer(|left|, true);
            var first, second := FailingRun(None, part, files, t), SkippingRun(part, |left|);
            var blobs, listed := map[part.hash := left], [Listed(part, |left|)];
            && Attempt(first, map[], blobs)
            && Ending(first, name, map[], map[], Err(SnapshotError.UploadFailed))
            && Attempt(second, blobs, blobs)
            && Ending(second, next, map[], map[next := listed], Ok(listed))
            && forall content :: !Restorable(content, blobs, map[next := listed])
  {
    hide ToEntries;
    hide Emitted;
    var left := Emitted(files);
    var second, blobs, listed := SkippingRun(part, |left|), map[part.hash := left], [Listed(part, |left|)];
    FailingAttempt(None, part, files, Transfer(|left|, true), name, map[], map[]);
    assert left[..|left|] == left && map[][part.hash := left] == blobs;
    SkippingAttempt(part, left, next);
    forall content
      ensures !Restorable(content, blobs, map[next := listed])
    {
      if part.hash in content {
        CompleteExactly(files, |left|, content[part.hash]);
      }
      assert !PartSound(content, blobs, listed[0]);
      assert !ListSound(content, blobs, map[next := listed][next]);
    }
  }

  /**
   * When the name of a file was refused, nobody notices: the part of that snapshot extracts
   * without an error, to the files before it.
   */
  lemma RestoresTooLittle(part: PartInfo, files: seq<SourceFile>, next: Name)
    requires ToEntries(files).Err? && ToEntries(files).error.BadName?
    requires Emitted(files) != [] && TreeLike(files) && part.bytesOnDisk >= HEAD_CHECK_THRESHOLD
    requires ToEntries(files[..Failing(files)]).Ok? && Unambiguous(ToEntries(files[..Failing(files)]).value, 0)
    ensures var left := Emitted(files);
            var blobs, listed := map[part.hash := left], [Listed(part, |left|)];
            var outcome := Extract(blobs[listed[0].blobHash], EMPTY);
            && Attempt(SkippingRun(part, |left|), blobs, blobs)
            && Ending(SkippingRun(part, |left|), next, map[], map[next := listed], Ok(listed))
            && outcome.Finished? && HoldsExactly(outcome.tree, files[..Failing(files)])
  {
    assert Listed(part, |Emitted(files)|).blobHash == part.hash;
    hide *;
    SkippingAttempt(part, Emitted(files), next);
    FailureExtracts(files);
  }

  lemma SkippingAttempt(part: PartInfo, left: seq<u8>, next: Name)
    requires part.bytesOnDisk >= HEAD_CHECK_THRESHOLD
    ensures var run, blobs, listed :=
              SkippingRun(part, |left|), map[part.hash := left], [Listed(part, |left|)];
            Attempt(run, blobs, blobs) && Ending(run, next, map[], map[next := listed], Ok(listed))
  {
    var run, blobs, listed := SkippingRun(part, |left|), map[part.hash := left], [Listed(part, |left|)];
    assert Hashes(run.parts) == {part.hash} by {
      assert run.parts[0].hash == part.hash;
    }
    assert First(run.first, part.hash) == part;
    assert Needed(run) == {} && DirsOf(run) == map[];
    forall h
      ensures Untouched(blobs, blobs, h)
    {
    }
    assert SizesOf(run) == map[part.hash := |left|];
    assert map[][next := listed] == map[next := listed];
  }

  // ---- Garbage collection ----

  /** The state machine's view of the bucket. */
  ghost predicate Shows(s: GcStore.State, blobs: Blobs, manifests: Manifests) {
    && s.blobs.Keys == blobs.Keys && s.manifests.Keys == manifests.Keys
    && forall n, h :: n in manifests ==> (h in s.manifests[n] <==> NamedBy(manifests[n], h))
  }

  function Present(blobs: Blobs, s: GcStore.State): Blobs { map h | h in blobs && h in s.blobs :: blobs[h] }

  function Remaining(manifests: Manifests, s: GcStore.State): Manifests {
    map n | n in manifests && n in s.manifests :: manifests[n]
  }

  predicate NoUpload(steps: seq<GcStore.Step>) {
    forall k :: 0 <= k < |steps| ==> !steps[k].Upload? && !steps[k].Commit?
  }

  lemma StepShrinks(s: GcStore.State, step: GcStore.Step)
    requires GcStore.Apply(s, step).Some? && !step.Upload? && !step.Commit?
    ensures var t := GcStore.Apply(s, step).value;
            && t.blobs.Keys <= s.blobs.Keys && t.manifests.Keys <= s.manifests.Keys
            && forall n :: n in t.manifests ==> t.manifests[n] == s.manifests[n]
  {
    hide GcStore.Union;
    hide GcStore.Only;
  }

  lemma {:induction false} OnlyShrinks(s: GcStore.State, steps: seq<GcStore.Step>)
    requires GcStore.Run(s, steps).Some? && NoUpload(steps)
    ensures var t := GcStore.Run(s, steps).value;
            && t.blobs.Keys <= s.blobs.Keys && t.manifests.Keys <= s.manifests.Keys
            && forall n :: n in t.manifests ==> t.manifests[n] == s.manifests[n]
  {
    hide GcStore.Apply;
    if steps != [] {
      var last := |steps| - 1;
      OnlyShrinks(s, steps[..last]);
      StepShrinks(GcStore.Run(s, steps[..last]).value, steps[last]);
    }
  }

  /** Any interleaving of GC runs keeps the promise, as far as it keeps named blobs (`GcSafety`). */
  lemma GcKeeps(content: Dirs, blobs: Blobs, manifests: Manifests, s: GcStore.State, steps: seq<GcStore.Step>)
    requires Restorable(content, blobs, manifests) && Shows(s, blobs, manifests) && s.gcs == map[]
    requires GcStore.Run(s, steps).Some? && NoUpload(steps) && GcSafety.QuietRun(s, steps)
    ensures var t := GcStore.Run(s, steps).value;
            && Restorable(content, Present(blobs, t), Remaining(manifests, t))
            && Shows(t, Present(blobs, t), Remaining(manifests, t))
  {
    hide GcStore.Run;
    hide GcSafety.QuietRun;
    hide NoUpload;
    hide IsArchive;
    var t := GcStore.Run(s, steps).value;
    forall n | n in s.manifests
      ensures s.manifests[n] <= s.blobs.Keys
    {
      forall h | h in s.manifests[n]
        ensures h in s.blobs
      {
        var i :| 0 <= i < |manifests[n]| && manifests[n][i].blobHash == h;
        assert ListSound(content, blobs, manifests[n]);
        assert PartSound(content, blobs, manifests[n][i]);
      }
    }
    GcSafety.GcKeepsSnapshots(s, steps);
    OnlyShrinks(s, steps);
    forall n, i | n in t.manifests && n in manifests && 0 <= i < |manifests[n]|
      ensures PartSound(content, Present(blobs, t), manifests[n][i])
    {
      assert ListSound(content, blobs, manifests[n]);
      assert PartSound(content, blobs, manifests[n][i]);
      assert NamedBy(manifests[n], manifests[n][i].blobHash);
    }
  }

  // ---- The promise over time ----

  /** What happens to the bucket: any snapshot run that comes to its uploads, or any quiet GC. */
  datatype Event =
    | Snapshots(run: Run, name: Name, r: Result<seq<ManifestPart>, SnapshotError>)
    | Collects(from: GcStore.State, steps: seq<GcStore.Step>)

  datatype Moment = Moment(blobs: Blobs, manifests: Manifests)

  ghost predicate Leads(e: Event, before: Moment, after: Moment) {
    match e
    case Snapshots(run, name, r) =>
      && Attempt(run, before.blobs, after.blobs) && Ending(run, name, before.manifests, after.manifests, r)
      && KnownFrom(run, before.manifests)
    case Collects(s, steps) =>
      && Shows(s, before.blobs, before.manifests) && s.gcs == map[]
      && GcStore.Run(s, steps).Some? && NoUpload(steps) && GcSafety.QuietRun(s, steps)
      && var t := GcStore.Run(s, steps).value;
         after == Moment(Present(before.blobs, t), Remaining(before.manifests, t))
  }

  /** What a snapshot run has to keep to; quiet collections need nothing more. */
  ghost predicate Respects(content: Dirs, e: Event, before: Moment, after: Moment)
    requires Leads(e, before, after)
  {
    e.Snapshots? ==>
      && KeepsOld(content, e.run, before.manifests)
      && (after.manifests != before.manifests ==> AddsSound(content, e.run, before.blobs))
  }

  lemma EventExactly(content: Dirs, e: Event, before: Moment, after: Moment)
    requires Leads(e, before, after) && Restorable(content, before.blobs, before.manifests)
    ensures Restorable(content, after.blobs, after.manifests) <==> Respects(content, e, before, after)
  {
    hide Attempt;
    hide Ending;
    hide Restorable;
    hide Present;
    hide Remaining;
    hide Shows;
    hide GcStore.Run;
    hide GcSafety.QuietRun;
    match e
    case Snapshots(run, name, r) =>
      SnapshotKeepsExactly(content, run, name, before.blobs, after.blobs, before.manifests, after.manifests, r);
    case Collects(s, steps) =>
      GcKeeps(content, before.blobs, before.manifests, s, steps);
  }

  /** The moments follow one another by the events. */
  ghost predicate History(events: seq<Event>, moments: seq<Moment>) {
    && |moments| == |events| + 1
    && forall i :: 0 <= i < |events| ==> Leads(events[i], moments[i], moments[i + 1])
  }

  ghost predicate AlwaysRestorable(content: Dirs, moments: seq<Moment>) {
    forall k :: 0 <= k < |moments| ==> Restorable(content, moments[k].blobs, moments[k].manifests)
  }

  ghost predicate AllRespect(content: Dirs, events: seq<Event>, moments: seq<Moment>)
    requires History(events, moments)
  {
    forall i :: 0 <= i < |events| ==> Respects(content, events[i], moments[i], moments[i + 1])
  }

  /**
   * However snapshots and collections follow one another, in success and in failure: every part
   * of every manifest can be restored all the time exactly when every snapshot run keeps to
   * its condition.
   */
  lemma {:induction false} HistoryExactly(content: Dirs, events: seq<Event>, moments: seq<Moment>)
    requires History(events, moments) && Restorable(content, moments[0].blobs, moments[0].manifests)
    ensures AlwaysRestorable(content, moments) <==> AllRespect(content, events, moments)
  {
    hide Leads;
    hide Restorable;
    hide Respects;
    if events != [] {
      var last := |events| - 1;
      var before := moments[..last + 1];
      HistoryExactly(content, events[..last], before);
      assert forall k :: 0 <= k <= last ==> before[k] == moments[k];
      assert AllRespect(content, events, moments) <==>
             AllRespect(content, events[..last], before)
             && Respects(content, events[last], moments[last], moments[last + 1]);
      assert AlwaysRestorable(content, moments) <==>
             AlwaysRestorable(content, before)
             && Restorable(content, moments[last + 1].blobs, moments[last + 1].manifests);
      if Restorable(content, moments[last].blobs, moments[last].manifests) {
        EventExactly(content, events[last], moments[last], moments[last + 1]);
      }
    }
  }
}

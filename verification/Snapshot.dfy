/** `create_snapshot`: from the active parts to the manifest, against any behaviour of the server. */
module Snapshot {
  import opened Wrappers
  import opened Bytes
  import opened ChunkSize
  import opened Multipart
  import opened PartUpload
  import opened Streams
  import opened ZipWriter
  import Latest

  type Hash = seq<u8>
  type Name = seq<u8>
  type Blobs = map<Hash, seq<u8>>
  type Manifests = map<Name, seq<ManifestPart>>

  const HEAD_CHECK_THRESHOLD := 512 * 1024
  const MAX_STAGING_ITERATIONS := 5

  datatype PartInfo = PartInfo(database: seq<u8>, table: seq<u8>, name: seq<u8>, hash: Hash, bytesOnDisk: nat)

  datatype ManifestPart =
    ManifestPart(database: seq<u8>, tableName: seq<u8>, partName: seq<u8>, blobHash: Hash, blobSize: nat)

  datatype SnapshotError =
    | QueryFailed
    | KnownFailed
    | PartsDisappeared
    | MetadataFailed
    | NotStaged(hash: Hash)
    | UploadFailed
    | SizeMismatch(hash: Hash)
    | MissingSize(hash: Hash)
    | ManifestExists
    | WriteFailed

  type Dirs = map<Hash, seq<SourceFile>>
  type Sizes = map<Hash, nat>
  type Transfers = map<Hash, Transfer>

  function Hashes(parts: seq<PartInfo>): set<Hash> { set i | 0 <= i < |parts| :: parts[i].hash }

  // ---- The surroundings ----

  /** What the server and its disks have answered: a part list, a capture of metadata, a staged part. */
  datatype Answer =
    | Parts(parts: Option<seq<PartInfo>>)
    | Metadata(of: seq<PartInfo>, ok: bool)
    | Staging(part: PartInfo, files: Option<seq<SourceFile>>)

  class Server {
    ghost var log: seq<Answer>

    constructor ()
      ensures log == []
    {
      log := [];
    }

    /** `query_active_parts`: any list, or a failure. */
    method QueryActiveParts() returns (parts: Option<seq<PartInfo>>)
      modifies this
      ensures log == old(log) + [Parts(parts)]
    {
      parts := *;
      log := log + [Parts(parts)];
    }

    /** `collect_metadata_files`: fails when a table has gone. */
    method CollectMetadataFiles(parts: seq<PartInfo>) returns (ok: bool)
      modifies this
      ensures log == old(log) + [Metadata(parts, ok)]
    {
      ok := *;
      log := log + [Metadata(parts, ok)];
    }

    /** Staging of one part: its files, or nothing when the part has gone. */
    method StagePart(part: PartInfo) returns (files: Option<seq<SourceFile>>)
      modifies this
      ensures log == old(log) + [Staging(part, files)]
    {
      files := *;
      log := log + [Staging(part, files)];
    }
  }

  /** The last part list that was answered, or `initial`. */
  function LastParts(log: seq<Answer>, initial: seq<PartInfo>): seq<PartInfo> {
    if log == [] then initial
    else
      var last := log[|log| - 1];
      if last.Parts? && last.parts.Some? then last.parts.value else LastParts(log[..|log| - 1], initial)
  }

  /** How many part lists were asked for. */
  function Queries(log: seq<Answer>): nat {
    if log == [] then 0 else Queries(log[..|log| - 1]) + if log[|log| - 1].Parts? then 1 else 0
  }

  /** How many captures of metadata have failed. */
  function Failures(log: seq<Answer>): nat {
    if log == [] then 0
    else Failures(log[..|log| - 1]) + if log[|log| - 1].Metadata? && !log[|log| - 1].ok then 1 else 0
  }

  /** How many parts were gone when they were to be staged. */
  function Gone(log: seq<Answer>): nat {
    if log == [] then 0
    else Gone(log[..|log| - 1]) + if log[|log| - 1].Staging? && log[|log| - 1].files.None? then 1 else 0
  }

  predicate Answered(log: seq<Answer>) { Parts(None) !in log }

  lemma LogNext(log: seq<Answer>, a: Answer, initial: seq<PartInfo>)
    ensures var more := log + [a];
            && LastParts(more, initial)
               == (if a.Parts? && a.parts.Some? then a.parts.value else LastParts(log, initial))
            && Queries(more) == Queries(log) + (if a.Parts? then 1 else 0)
            && Failures(more) == Failures(log) + (if a.Metadata? && !a.ok then 1 else 0)
            && Gone(more) == Gone(log) + (if a.Staging? && a.files.None? then 1 else 0)
            && (Answered(more) <==> Answered(log) && a != Parts(None))
  {
    assert (log + [a])[..|log|] == log;
  }

  class Bucket {
    var blobs: Blobs
    var manifests: Manifests
    /** How many requests have failed, or have lost their reply. */
    ghost var faults: nat

    constructor ()
      ensures blobs == map[] && manifests == map[] && faults == 0
    {
      blobs, manifests, faults := map[], map[], 0;
    }

    /** A request may fail at any time. */
    method Fails() returns (fails: bool)
      modifies this`faults
      ensures faults == if fails then old(faults) + 1 else old(faults)
    {
      fails := *;
      faults := if fails then faults + 1 else faults;
    }

    /** HEAD on a blob; a failed request counts as not found. */
    method Head(hash: Hash) returns (size: Option<nat>)
      modifies this`faults
      ensures faults >= old(faults)
      ensures size.Some? ==> hash in blobs && size.value == |blobs[hash]|
      ensures faults == old(faults) && hash in blobs ==> size.Some?
    {
      var fails := Fails();
      size := if !fails && hash in blobs then Some(|blobs[hash]|) else None;
    }

    /** The names of all manifests, in no particular order. */
    method ListManifestNames() returns (names: Option<seq<Name>>)
      modifies this`faults
      ensures names.None? ==> faults > old(faults)
      ensures names.Some? ==> faults == old(faults) && forall n :: n in names.value <==> n in manifests
    {
      var fails := Fails();
      if fails {
        return None;
      }
      var listed: seq<Name>, left := [], manifests.Keys;
      while left != {}
        invariant left <= manifests.Keys
        invariant forall n :: n in listed <==> n in manifests && n !in left
        decreases left
      {
        var n :| n in left;
        left := left - {n};
        listed := listed + [n];
      }
      names := Some(listed);
    }

    method ReadManifest(name: Name) returns (parts: Option<seq<ManifestPart>>)
      requires name in manifests
      modifies this`faults
      ensures parts.None? ==> faults > old(faults)
      ensures parts.Some? ==> faults == old(faults) && parts.value == manifests[name]
    {
      var fails := Fails();
      parts := if fails then None else Some(manifests[name]);
    }

    /**
     * Upload of one staged part: the blob becomes what the transfer makes of it, and no other
     * changes. Without a fault it succeeds exactly when the files can be archived.
     */
    method Upload(hash: Hash, files: seq<SourceFile>, l: Limits) returns (size: Option<nat>, ghost t: Transfer)
      requires l.concurrency >= 1 && l.minChunk > 0 && l.maxChunk > 0
      modifies this`blobs, this`faults
      ensures forall h :: h != hash ==> Untouched(old(blobs), blobs, h)
      ensures Moved(old(blobs), blobs, files, t, hash)
      ensures size.Some? ==> t.joined && Whole(files, t) && size.value == t.arrived
      ensures faults >= old(faults)
      ensures size.None? ==> faults > old(faults) || ToEntries(files).Err?
    {
      hide Whole;
      hide Emitted;
      hide ToEntries;
      var target := new Target(if hash in blobs then Some(blobs[hash]) else None);
      var pipe := new Source([]);
      var uploaded;
      uploaded, t := UploadPart(target, pipe, files, l, None);
      WholeMeans(files, t);
      if target.stored.Some? {
        blobs := blobs[hash := target.stored.value];
      }
      faults := faults + target.faults + pipe.faults;
      var uncleaned := Fails();
      size := if uploaded.Ok? && !uncleaned then Some(uploaded.value) else None;
    }

    /**
     * `write_manifest`: one conditional PUT, so a name is never written twice. A lost reply
     * leaves the manifest in place and reports a failure, never a collision.
     */
    method WriteManifest(name: Name, parts: seq<ManifestPart>) returns (r: Result<(), SnapshotError>)
      modifies this`manifests, this`faults
      ensures name in old(manifests) ==> r.Err? && manifests == old(manifests)
      ensures manifests == old(manifests) || manifests == old(manifests)[name := parts]
      ensures r.Ok? ==> manifests == old(manifests)[name := parts]
      ensures r.Err? ==> r.error == WriteFailed || (r.error == ManifestExists && name in old(manifests))
      ensures faults >= old(faults)
      ensures r == Err(WriteFailed) ==> faults > old(faults)
    {
      var lost := Fails();
      if name in manifests {
        return Err(if lost then WriteFailed else ManifestExists);
      }
      var arrives: bool := *;
      if !lost || arrives {
        manifests := manifests[name := parts];
      }
      r := if lost then Err(WriteFailed) else Ok(());
    }
  }

  function Lookup(blobs: Blobs, h: Hash): Option<seq<u8>> {
    if h in blobs then Some(blobs[h]) else None
  }

  predicate Untouched(before: Blobs, after: Blobs, h: Hash) { Lookup(after, h) == Lookup(before, h) }

  predicate Moved(before: Blobs, after: Blobs, files: seq<SourceFile>, t: Transfer, h: Hash) {
    && AllArrived(files, t) && (t.joined ==> t.arrived > 0)
    && Lookup(after, h) == After(files, t, Lookup(before, h))
  }

  /** Every staged part is moved, and every other blob untouched. */
  ghost predicate Stored(before: Blobs, after: Blobs, dirs: Dirs, ts: Transfers) {
    && ts.Keys == dirs.Keys
    && (forall h :: h in dirs ==> Moved(before, after, dirs[h], ts[h], h))
    && (forall h :: h !in dirs ==> Untouched(before, after, h))
  }

  // ---- The steps ----

  /** The part whose hash comes first; parts with equal hashes share one blob. */
  function First(parts: seq<PartInfo>, hash: Hash): (p: PartInfo)
    requires hash in Hashes(parts)
    ensures p in parts && p.hash == hash
  {
    if parts[0].hash == hash then parts[0]
    else
      assert forall i :: 1 <= i < |parts| ==> parts[i] == parts[1..][i - 1];
      First(parts[1..], hash)
  }

  /** No part in front of it has the hash. */
  lemma {:induction false} FirstIsFirst(parts: seq<PartInfo>, hash: Hash) returns (i: nat)
    requires hash in Hashes(parts)
    ensures i < |parts| && parts[i] == First(parts, hash) && parts[i].hash == hash
    ensures forall j :: 0 <= j < i ==> parts[j].hash != hash
  {
    if parts[0].hash == hash {
      return 0;
    }
    assert forall k :: 1 <= k < |parts| ==> parts[k] == parts[1..][k - 1];
    var k := FirstIsFirst(parts[1..], hash);
    i := k + 1;
  }

  lemma {:induction false} FirstSnoc(parts: seq<PartInfo>, p: PartInfo, hash: Hash)
    requires hash in Hashes(parts + [p])
    ensures First(parts + [p], hash) == if hash in Hashes(parts) then First(parts, hash) else p
  {
    var all := parts + [p];
    if parts != [] && parts[0].hash != hash {
      assert all[1..] == parts[1..] + [p];
      assert forall i :: 1 <= i < |parts| ==> parts[i] == parts[1..][i - 1];
      assert forall i :: 1 <= i < |all| ==> all[i] == all[1..][i - 1];
      FirstSnoc(parts[1..], p, hash);
    }
  }

  /** `parts_to_upload`: one part for every hash that no known blob covers. */
  method PartsToUpload(parts: seq<PartInfo>, known: set<Hash>) returns (need: map<Hash, PartInfo>)
    ensures need.Keys == Hashes(parts) - known
    ensures forall h :: h in need ==> need[h] == First(parts, h)
  {
    hide First;
    need := map[];
    var seen: set<Hash> := {};
    for k := 0 to |parts|
      invariant seen == Hashes(parts[..k])
      invariant need.Keys == seen - known
      invariant forall h :: h in need ==> need[h] == First(parts[..k], h)
    {
      var p := parts[k];
      assert parts[..k + 1] == parts[..k] + [p];
      assert Hashes(parts[..k + 1]) == seen + {p.hash};
      forall h | h in Hashes(parts[..k + 1])
        ensures First(parts[..k + 1], h) == if h in seen then First(parts[..k], h) else p
      {
        FirstSnoc(parts[..k], p, h);
      }
      if p.hash !in seen {
        seen := seen + {p.hash};
        if p.hash !in known {
          need := need[p.hash := p];
        }
      }
    }
    assert parts[..|parts|] == parts;
  }

  /**
   * `head_check_existing`: finds exactly the candidates of at least 512 KiB that exist, but for
   * those whose request fails.
   */
  method HeadCheckExisting(bucket: Bucket, candidates: map<Hash, PartInfo>) returns (found: Sizes)
    modifies bucket`faults
    ensures bucket.faults >= old(bucket.faults)
    ensures forall h :: h in found ==>
              && h in candidates && candidates[h].bytesOnDisk >= 524288
              && h in bucket.blobs && found[h] == |bucket.blobs[h]|
    ensures bucket.faults == old(bucket.faults) ==>
              forall h :: h in candidates && candidates[h].bytesOnDisk >= 524288 && h in bucket.blobs ==> h in found
  {
    found := map[];
    var left := candidates.Keys;
    while left != {}
      invariant left <= candidates.Keys
      invariant bucket.faults >= old(bucket.faults)
      invariant forall h :: h in found ==>
                  && h in candidates && candidates[h].bytesOnDisk >= HEAD_CHECK_THRESHOLD
                  && h in bucket.blobs && found[h] == |bucket.blobs[h]|
      invariant bucket.faults == old(bucket.faults) ==>
                  forall h :: h in candidates && h !in left && candidates[h].bytesOnDisk >= 524288 && h in bucket.blobs
                              ==> h in found
      decreases left
    {
      var h :| h in left;
      left := left - {h};
      if candidates[h].bytesOnDisk >= HEAD_CHECK_THRESHOLD {
        var size := bucket.Head(h);
        if size.Some? {
          found := found[h := size.value];
        }
      }
    }
  }

  /** Nothing but parts to stage was asked for. */
  predicate OnlyStaging(log: seq<Answer>) { forall i :: 0 <= i < |log| ==> log[i].Staging? }

  lemma {:induction false} LogConcat(a: seq<Answer>, b: seq<Answer>, initial: seq<PartInfo>)
    ensures LastParts(a + b, initial) == LastParts(b, LastParts(a, initial))
    ensures Queries(a + b) == Queries(a) + Queries(b) && Failures(a + b) == Failures(a) + Failures(b)
    ensures Gone(a + b) == Gone(a) + Gone(b) && (Answered(a + b) <==> Answered(a) && Answered(b))
  {
    hide LastParts;
    hide Queries;
    hide Failures;
    hide Gone;
    hide Answered;
    if b == [] {
      NothingLogged(LastParts(a, initial));
      assert a + b == a;
    } else {
      var front, last := b[..|b| - 1], b[|b| - 1];
      LogConcat(a, front, initial);
      LogNext(a + front, last, initial);
      LogNext(front, last, LastParts(a, initial));
      assert a + b == a + front + [last] && b == front + [last];
    }
  }

  lemma {:induction false} StagingLog(log: seq<Answer>, initial: seq<PartInfo>)
    requires OnlyStaging(log)
    ensures LastParts(log, initial) == initial && Queries(log) == 0 && Failures(log) == 0 && Answered(log)
  {
    if log != [] {
      StagingLog(log[..|log| - 1], initial);
    }
  }

  lemma NothingLogged(initial: seq<PartInfo>)
    ensures LastParts([], initial) == initial && Queries([]) == Gone([]) == Failures([]) == 0
    ensures Answered([]) && FromLog([], map[])
  {
  }

  /** One staging pass: every part is asked for, and is staged or missing as answered. */
  method Stage(server: Server, need: map<Hash, PartInfo>)
      returns (staged: Dirs, missing: set<Hash>, ghost news: seq<Answer>)
    modifies server
    ensures server.log == old(server.log) + news && OnlyStaging(news)
    ensures staged.Keys + missing == need.Keys && staged.Keys !! missing
    ensures forall h :: h in staged ==> Staging(need[h], Some(staged[h])) in news
    ensures forall h :: h in missing ==> Staging(need[h], None) in news
    ensures missing != {} ==> Gone(news) > 0
  {
    staged, missing, news := map[], {}, [];
    var left := need.Keys;
    while left != {}
      invariant left <= need.Keys
      invariant server.log == old(server.log) + news && OnlyStaging(news)
      invariant staged.Keys + missing == need.Keys - left && staged.Keys !! missing
      invariant forall h :: h in staged ==> Staging(need[h], Some(staged[h])) in news
      invariant forall h :: h in missing ==> Staging(need[h], None) in news
      invariant missing != {} ==> Gone(news) > 0
      decreases left
    {
      var h :| h in left;
      left := left - {h};
      var files := server.StagePart(need[h]);
      LogNext(news, Staging(need[h], files), []);
      news := news + [Staging(need[h], files)];
      match files {
        case None => missing := missing + {h};
        case Some(fs) => staged := staged[h := fs];
      }
    }
  }

  /** What has been staged under each hash is what was answered for a part of that hash. */
  ghost predicate FromLog(log: seq<Answer>, staged: Dirs) {
    forall h :: h in staged ==> exists part: PartInfo :: part.hash == h && Staging(part, Some(staged[h])) in log
  }

  lemma MoreStaged(log: seq<Answer>, news: seq<Answer>, staged: Dirs, need: map<Hash, PartInfo>, more: Dirs)
    requires FromLog(log, staged) && more.Keys <= need.Keys && forall h :: h in need ==> need[h].hash == h
    requires forall h :: h in more ==> Staging(need[h], Some(more[h])) in news
    ensures FromLog(log + news, staged + more)
  {
    forall h | h in staged + more
      ensures exists part: PartInfo :: part.hash == h && Staging(part, Some((staged + more)[h])) in log + news
    {
      if h in more {
        assert Staging(need[h], Some(more[h])) in log + news;
      } else {
        var part: PartInfo :| part.hash == h && Staging(part, Some(staged[h])) in log;
        assert Staging(part, Some(staged[h])) in log + news;
      }
    }
  }

  lemma LaterLog(log: seq<Answer>, news: seq<Answer>, staged: Dirs)
    requires FromLog(log, staged)
    ensures FromLog(log + news, staged)
  {
    MoreStaged(log, news, staged, map[], map[]);
    assert staged + map[] == staged;
  }

  /**
   * Phase 1: restages against fresh part lists until everything needed is staged. It fails only
   * when a part list cannot be had, or when parts were gone in each of five passes.
   */
  method StageAll(server: Server, initial: seq<PartInfo>, known: set<Hash>)
      returns (r: Result<(seq<PartInfo>, Dirs), SnapshotError>, ghost news: seq<Answer>)
    modifies server
    ensures server.log == old(server.log) + news && Failures(news) == 0
    ensures match r
            case Ok((parts, staged)) =>
              && Hashes(parts) - known <= staged.Keys && parts == LastParts(news, initial)
              && FromLog(news, staged) && Answered(news) && Queries(news) <= 4
            case Err(PartsDisappeared) => Answered(news) && Queries(news) == 4 && Gone(news) >= 5
            case Err(QueryFailed) => !Answered(news)
            case _ => false
  {
    hide First;
    hide Hashes;
    hide FromLog;
    hide LastParts;
    hide Queries;
    hide Gone;
    hide Failures;
    hide Answered;
    var parts, staged: Dirs, pass := initial, map[], 1;
    news := [];
    NothingLogged(initial);
    while true
      invariant server.log == old(server.log) + news && 1 <= pass <= MAX_STAGING_ITERATIONS
      invariant parts == LastParts(news, initial) && FromLog(news, staged) && Answered(news)
      invariant Queries(news) == pass - 1 && Gone(news) >= pass - 1 && Failures(news) == 0
      decreases MAX_STAGING_ITERATIONS - pass
    {
      var need := PartsToUpload(parts, known);
      var needStage := need - staged.Keys;
      if needStage == map[] {
        assert forall h :: h in need && h !in staged ==> h in needStage;
        return Ok((parts, staged)), news;
      }
      var more, missing;
      ghost var answers;
      more, missing, answers := Stage(server, needStage);
      LogConcat(news, answers, initial);
      StagingLog(answers, parts);
      MoreStaged(news, answers, staged, needStage, more);
      news := news + answers;
      staged := staged + more;
      if missing == {} {
        assert forall h :: h in need && h !in staged ==> h in needStage;
        return Ok((parts, staged)), news;
      }
      if pass == MAX_STAGING_ITERATIONS {
        return Err(PartsDisappeared), news;
      }
      var again := server.QueryActiveParts();
      LogNext(news, Parts(again), initial);
      LaterLog(news, [Parts(again)], staged);
      news := news + [Parts(again)];
      if again.None? {
        return Err(QueryFailed), news;
      }
      parts := again.value;
      pass := pass + 1;
    }
  }

  /**
   * Captures the metadata of the part list it ends with, with a fresh list after every failure;
   * it fails only when a part list cannot be had, or after five failures.
   */
  method CaptureMetadata(server: Server, initial: seq<PartInfo>)
      returns (r: Result<(seq<PartInfo>, bool), SnapshotError>, ghost news: seq<Answer>)
    modifies server
    ensures server.log == old(server.log) + news
    ensures match r
            case Ok((parts, again)) =>
              && parts == LastParts(news, initial) && Answered(news)
              && news != [] && news[|news| - 1] == Metadata(parts, true)
              && (again <==> Failures(news) > 0) && (!again ==> parts == initial)
            case Err(MetadataFailed) => Answered(news) && Failures(news) == 5
            case Err(QueryFailed) => !Answered(news)
            case _ => false
  {
    hide LastParts;
    hide Queries;
    hide Gone;
    hide Failures;
    hide Answered;
    var parts, attempt := initial, 1;
    news := [];
    NothingLogged(initial);
    while true
      invariant server.log == old(server.log) + news && 1 <= attempt <= MAX_STAGING_ITERATIONS
      invariant parts == LastParts(news, initial) && Answered(news) && Failures(news) == attempt - 1
      invariant attempt == 1 ==> parts == initial
      decreases MAX_STAGING_ITERATIONS - attempt
    {
      var ok := server.CollectMetadataFiles(parts);
      LogNext(news, Metadata(parts, ok), initial);
      news := news + [Metadata(parts, ok)];
      if ok {
        return Ok((parts, attempt > 1)), news;
      }
      if attempt == MAX_STAGING_ITERATIONS {
        return Err(MetadataFailed), news;
      }
      var again := server.QueryActiveParts();
      LogNext(news, Parts(again), initial);
      news := news + [Parts(again)];
      if again.None? {
        return Err(QueryFailed), news;
      }
      parts := again.value;
      attempt := attempt + 1;
    }
  }

  /** What to upload; fails when a needed hash is neither in the store nor staged. */
  method PlanUploads(need: set<Hash>, staged: Dirs, skipped: set<Hash>) returns (r: Result<Dirs, SnapshotError>)
    ensures r.Ok? <==> need - skipped <= staged.Keys
    ensures r.Ok? ==> r.value.Keys == need - skipped && forall h :: h in r.value ==> r.value[h] == staged[h]
    ensures r.Err? ==> r.error.NotStaged? && r.error.hash in need - skipped - staged.Keys
  {
    var upload := map h | h in staged && h in need && h !in skipped :: staged[h];
    var left := need;
    while left != {}
      invariant left <= need
      invariant need - left - skipped <= staged.Keys
      decreases left
    {
      var h :| h in left;
      left := left - {h};
      if h !in skipped && h !in upload {
        return Err(NotStaged(h));
      }
    }
    r := Ok(upload);
  }

  /** The parts of which an upload is reported as successful have been transferred whole. */
  predicate Reported(dirs: Dirs, ts: Transfers, sizes: Sizes) {
    forall h :: h in sizes ==>
      h in dirs && h in ts && ts[h].joined && Whole(dirs[h], ts[h]) && sizes[h] == ts[h].arrived
  }

  /** Some part has a file that cannot be archived. */
  predicate Unarchivable(dirs: Dirs) { exists h :: h in dirs && ToEntries(dirs[h]).Err? }

  /** Phase 2: uploads every staged part; all uploads are run before a failure is reported. */
  method UploadPartArchives(bucket: Bucket, dirs: Dirs, l: Limits)
      returns (r: Result<Sizes, SnapshotError>, ghost ts: Transfers)
    requires l.concurrency >= 1 && l.minChunk > 0 && l.maxChunk > 0
    modifies bucket`blobs, bucket`faults
    ensures Stored(old(bucket.blobs), bucket.blobs, dirs, ts)
    ensures r.Ok? ==> r.value.Keys == dirs.Keys && Reported(dirs, ts, r.value)
    ensures r.Err? ==> r.error == UploadFailed && dirs != map[]
    ensures bucket.faults >= old(bucket.faults)
    ensures r.Err? ==> bucket.faults > old(bucket.faults) || Unarchivable(dirs)
  {
    hide Whole;
    hide Moved;
    hide Untouched;
    hide ToEntries;
    var sizes: Sizes, failed := map[], false;
    ts := map[];
    var left := dirs.Keys;
    UntouchedAll(bucket.blobs);
    while left != {}
      invariant left <= dirs.Keys && ts.Keys == dirs.Keys - left
      invariant forall h :: h in left || h !in dirs ==> Untouched(old(bucket.blobs), bucket.blobs, h)
      invariant forall h :: h in ts ==> Moved(old(bucket.blobs), bucket.blobs, dirs[h], ts[h], h)
      invariant !failed ==> sizes.Keys == ts.Keys && Reported(dirs, ts, sizes)
      invariant failed ==> dirs != map[]
      invariant bucket.faults >= old(bucket.faults)
      invariant failed ==> bucket.faults > old(bucket.faults) || Unarchivable(dirs)
      decreases left
    {
      var h :| h in left;
      ghost var before := bucket.blobs;
      var size;
      ghost var t;
      size, t := bucket.Upload(h, dirs[h], l);
      OneMoved(old(bucket.blobs), before, bucket.blobs, dirs, ts, left, h, t);
      left := left - {h};
      ts := ts[h := t];
      match size {
        case None => failed := true;
        case Some(n) => sizes := sizes[h := n];
      }
    }
    r := if failed then Err(UploadFailed) else Ok(sizes);
  }

  lemma UntouchedAll(blobs: Blobs)
    ensures forall h :: Untouched(blobs, blobs, h)
  {
  }

  lemma OneMoved(start: Blobs, before: Blobs, after: Blobs, dirs: Dirs, ts: Transfers, left: set<Hash>,
                 h: Hash, t: Transfer)
    requires h in left && left <= dirs.Keys && ts.Keys == dirs.Keys - left
    requires forall g :: g in left || g !in dirs ==> Untouched(start, before, g)
    requires forall g :: g in ts ==> Moved(start, before, dirs[g], ts[g], g)
    requires forall g :: g != h ==> Untouched(before, after, g)
    requires Moved(before, after, dirs[h], t, h)
    ensures forall g :: (g in left && g != h) || g !in dirs ==> Untouched(start, after, g)
    ensures forall g :: g in ts ==> Moved(start, after, dirs[g], ts[g], g)
    ensures Moved(start, after, dirs[h], t, h)
  {
    hide Emitted;
    forall g | g in ts
      ensures Moved(start, after, dirs[g], ts[g], g)
    {
      assert Untouched(before, after, g);
    }
    forall g | (g in left && g != h) || g !in dirs
      ensures Untouched(start, after, g)
    {
      assert Untouched(before, after, g);
    }
  }

  /** Adds the sizes of new blobs; a known size that disagrees stops the run. */
  method MergeSizes(known: Sizes, added: Sizes) returns (r: Result<Sizes, SnapshotError>)
    ensures r.Ok? ==> r.value == known + added
    ensures r.Err? ==> r.error.SizeMismatch? && r.error.hash in known.Keys * added.Keys
                       && known[r.error.hash] != added[r.error.hash]
    ensures r.Ok? <==> forall h :: h in known && h in added ==> known[h] == added[h]
  {
    var sizes := known;
    var left := added.Keys;
    while left != {}
      invariant left <= added.Keys
      invariant sizes == known + (map h | h in added && h !in left :: added[h])
      invariant forall h :: h in known && h in added && h !in left ==> known[h] == added[h]
      decreases left
    {
      var h :| h in left;
      left := left - {h};
      var previous := if h in sizes then Some(sizes[h]) else None;
      sizes := sizes[h := added[h]];
      if previous.Some? && previous.value != added[h] {
        return Err(SizeMismatch(h));
      }
    }
    r := Ok(sizes);
  }

  /** The entry names the part, its blob and the size of that. */
  predicate Names(entry: ManifestPart, p: PartInfo, size: nat) {
    && entry.database == p.database && entry.tableName == p.table && entry.partName == p.name
    && entry.blobHash == p.hash && entry.blobSize == size
  }

  function Listed(p: PartInfo, size: nat): ManifestPart {
    ManifestPart(p.database, p.table, p.name, p.hash, size)
  }

  /** The manifest's parts; a hash without a size stops the run. */
  method ManifestParts(parts: seq<PartInfo>, sizes: Sizes) returns (r: Result<seq<ManifestPart>, SnapshotError>)
    ensures r.Ok? <==> Hashes(parts) <= sizes.Keys
    ensures r.Ok? ==> |r.value| == |parts|
    ensures r.Ok? ==> forall i :: 0 <= i < |parts| ==>
              parts[i].hash in sizes && Names(r.value[i], parts[i], sizes[parts[i].hash])
    ensures r.Err? ==> r.error.MissingSize? && r.error.hash in Hashes(parts) - sizes.Keys
  {
    var listed: seq<ManifestPart> := [];
    for k := 0 to |parts|
      invariant |listed| == k
      invariant forall i :: 0 <= i < k ==>
                  parts[i].hash in sizes && Names(listed[i], parts[i], sizes[parts[i].hash])
    {
      if parts[k].hash !in sizes {
        return Err(MissingSize(parts[k].hash));
      }
      listed := listed + [Listed(parts[k], sizes[parts[k].hash])];
    }
    r := Ok(listed);
  }

  /** The sizes the latest manifest records. */
  function KnownSizes(ps: seq<ManifestPart>): (known: Sizes)
    ensures forall h :: h in known ==> exists i :: 0 <= i < |ps| && ps[i].blobHash == h && ps[i].blobSize == known[h]
    ensures forall i :: 0 <= i < |ps| ==> ps[i].blobHash in known
  {
    if ps == [] then map[]
    else
      var front, last := ps[..|ps| - 1], ps[|ps| - 1];
      KnownSizes(front)[last.blobHash := last.blobSize]
  }

  /** The last entry of a blob counts. */
  lemma {:induction false} KnownFromLast(ps: seq<ManifestPart>, i: nat)
    requires i < |ps| && forall j :: i < j < |ps| ==> ps[j].blobHash != ps[i].blobHash
    ensures KnownSizes(ps)[ps[i].blobHash] == ps[i].blobSize
  {
    if i < |ps| - 1 {
      KnownFromLast(ps[..|ps| - 1], i);
    }
  }

  /** `load_known_from_latest_manifest`, once the latest manifest is chosen. */
  method LoadKnown(ps: seq<ManifestPart>) returns (known: Sizes)
    ensures known == KnownSizes(ps)
  {
    known := map[];
    for k := 0 to |ps|
      invariant known == KnownSizes(ps[..k])
    {
      assert ps[..k + 1][..k] == ps[..k];
      known := known[ps[k].blobHash := ps[k].blobSize];
    }
    assert ps[..|ps|] == ps;
  }

  // ---- The whole run ----

  /**
   * What a run worked with: the latest manifest, its first and its last part list, where it
   * has each blob from, and how the uploads went.
   */
  datatype Run = Run(
    latest: Option<Name>, first: seq<PartInfo>, parts: seq<PartInfo>, known: Sizes, skipped: Sizes,
    staged: Dirs, transfers: Transfers, uploaded: Sizes)

  /** The latest manifest by name. */
  ghost predicate IsLatest(manifests: Manifests, prefix: seq<u8>, latest: Option<Name>) {
    && (latest.None? <==> forall n :: n in manifests ==> !(prefix <= n))
    && (latest.Some? ==>
          && latest.value in manifests && prefix <= latest.value
          && forall n :: n in manifests && prefix <= n ==> n == latest.value || Latest.Less(n, latest.value))
  }

  predicate KnownFrom(run: Run, manifests: Manifests) {
    match run.latest
    case None => run.known == map[]
    case Some(n) => n in manifests && run.known == KnownSizes(manifests[n])
  }

  /** Only large parts of the first list that no known blob covers are skipped, and only when there is an object. */
  predicate SkippedByHead(run: Run, blobs: Blobs) {
    forall h :: h in run.skipped ==>
      && h in Hashes(run.first) && h !in run.known && First(run.first, h).bytesOnDisk >= HEAD_CHECK_THRESHOLD
      && h in blobs && run.skipped[h] == |blobs[h]|
  }

  /** What the run has to upload. */
  function Needed(run: Run): set<Hash> { Hashes(run.parts) - run.known.Keys - run.skipped.Keys }

  function DirsOf(run: Run): (dirs: Dirs)
    ensures dirs.Keys == Needed(run) * run.staged.Keys
    ensures forall h :: h in dirs ==> dirs[h] == run.staged[h]
  {
    map h | h in run.staged && h in Needed(run) :: run.staged[h]
  }

  /** The sizes the manifest is written with. */
  function SizesOf(run: Run): Sizes { run.known + (run.uploaded + run.skipped) }

  /** The blobs before and after a run that has come to its uploads. */
  ghost predicate Attempt(run: Run, before: Blobs, after: Blobs) {
    && SkippedByHead(run, before)
    && Needed(run) <= run.staged.Keys
    && Stored(before, after, DirsOf(run), run.transfers)
    && Reported(DirsOf(run), run.transfers, run.uploaded)
  }

  /** Every upload was reported as successful. */
  predicate Done(run: Run) { run.uploaded.Keys == run.transfers.Keys }

  /** The manifest of the run was added under a new name. */
  ghost predicate Written(run: Run, name: Name, before: Manifests, after: Manifests) {
    && Done(run) && name !in before && name in after && after == before[name := after[name]]
    && ListedWith(after[name], run.parts, SizesOf(run))
  }

  /** The manifests before and after such a run, and what it reports. */
  ghost predicate Ending(run: Run, name: Name, before: Manifests, after: Manifests,
                         r: Result<seq<ManifestPart>, SnapshotError>)
  {
    match r
    case Ok(listed) => Written(run, name, before, after) && after[name] == listed
    case Err(UploadFailed) => after == before && !Done(run)
    case Err(ManifestExists) => after == before && name in before && Done(run)
    case Err(WriteFailed) => Done(run) && (after == before || Written(run, name, before, after))
    case Err(_) => false
  }

  predicate Uploaded(blobs: Blobs, h: Hash, files: seq<SourceFile>, size: nat) {
    h in blobs && IsArchive(blobs[h], files) && size == |blobs[h]|
  }

  /** A blob comes from exactly one place, and `size` is its size there. */
  predicate OneOrigin(run: Run, blobs: Blobs, h: Hash, size: nat) {
    || (h in run.known && h !in run.skipped && h !in run.uploaded && size == run.known[h])
    || (&& h in run.skipped && h !in run.known && h !in run.uploaded
        && h in blobs && size == run.skipped[h] == |blobs[h]|)
    || (&& h in run.uploaded && h !in run.known && h !in run.skipped
        && h in run.staged && Uploaded(blobs, h, run.staged[h], size))
  }

  /** The manifest lists the run's parts, in order, each with a blob of known origin and size. */
  predicate Complete(listed: seq<ManifestPart>, run: Run, blobs: Blobs) {
    && |listed| == |run.parts|
    && forall i :: 0 <= i < |listed| ==>
         && Names(listed[i], run.parts[i], listed[i].blobSize)
         && OneOrigin(run, blobs, listed[i].blobHash, listed[i].blobSize)
  }

  /** Every part is listed with the size its blob has. */
  predicate ListedWith(listed: seq<ManifestPart>, parts: seq<PartInfo>, sizes: Sizes) {
    && |listed| == |parts|
    && forall i :: 0 <= i < |parts| ==>
         parts[i].hash in sizes && Names(listed[i], parts[i], sizes[parts[i].hash])
  }

  /** A listing determines the parts it lists, in order, up to what it does not record. */
  lemma ListingDetermines(listed: seq<ManifestPart>, parts: seq<PartInfo>, sizes: Sizes,
                          others: seq<PartInfo>, otherSizes: Sizes)
    requires ListedWith(listed, parts, sizes) && ListedWith(listed, others, otherSizes)
    ensures |parts| == |others| == |listed|
    ensures forall i :: 0 <= i < |parts| ==>
              parts[i] == others[i].(bytesOnDisk := parts[i].bytesOnDisk)
              && sizes[parts[i].hash] == otherSizes[others[i].hash]
  {
    assert forall i :: 0 <= i < |parts| ==> Names(listed[i], parts[i], sizes[parts[i].hash]);
  }

  /** Parts that differ in database, table, name or hash have different entries. */
  lemma EntriesDiffer(p: PartInfo, q: PartInfo, x: ManifestPart, y: ManifestPart, m: nat, n: nat)
    requires Names(x, p, m) && Names(y, q, n)
    ensures x == y <==> (p.database, p.table, p.name, p.hash, m) == (q.database, q.table, q.name, q.hash, n)
  {
  }

  /** What is uploaded under a hash of the run. */
  lemma TransferredWhole(run: Run, before: Blobs, after: Blobs, h: Hash)
    requires Attempt(run, before, after) && h in run.uploaded
    ensures h in run.staged && Uploaded(after, h, run.staged[h], run.uploaded[h])
    ensures h !in run.known && h !in run.skipped
  {
    hide Hashes;
    hide First;
    hide Emitted;
    hide Whole;
    hide IsArchive;
    hide ToEntries;
    var files, t := run.staged[h], run.transfers[h];
    assert Moved(before, after, files, t, h);
    WholeExactly(files, t, Lookup(before, h), files);
  }

  lemma AllOrigins(run: Run, before: Blobs, after: Blobs, h: Hash)
    requires Attempt(run, before, after) && Done(run) && h in Hashes(run.parts)
    ensures h in SizesOf(run) && OneOrigin(run, after, h, SizesOf(run)[h])
  {
    hide Uploaded;
    hide Hashes;
    hide Moved;
    hide First;
    hide Whole;
    if h in run.uploaded {
      TransferredWhole(run, before, after, h);
    } else {
      assert h !in DirsOf(run);
      assert Untouched(before, after, h);
    }
  }

  lemma ListedComplete(run: Run, before: Blobs, after: Blobs, listed: seq<ManifestPart>)
    requires Attempt(run, before, after) && Done(run) && ListedWith(listed, run.parts, SizesOf(run))
    ensures Complete(listed, run, after)
  {
    hide OneOrigin;
    hide Attempt;
    hide Done;
    hide SizesOf;
    forall i | 0 <= i < |listed|
      ensures OneOrigin(run, after, listed[i].blobHash, listed[i].blobSize)
    {
      AllOrigins(run, before, after, run.parts[i].hash);
    }
  }

  /** Resolves the sizes and writes the manifest. */
  method WriteListed(bucket: Bucket, name: Name, parts: seq<PartInfo>, known: Sizes, added: Sizes)
      returns (r: Result<seq<ManifestPart>, SnapshotError>)
    modifies bucket`manifests, bucket`faults
    ensures bucket.faults >= old(bucket.faults)
    ensures r == Err(WriteFailed) ==> bucket.faults > old(bucket.faults)
    ensures r.Ok? ==>
              && name !in old(bucket.manifests) && bucket.manifests == old(bucket.manifests)[name := r.value]
              && ListedWith(r.value, parts, known + added)
    ensures bucket.manifests == old(bucket.manifests)
            || (&& name !in old(bucket.manifests) && name in bucket.manifests
                && bucket.manifests == old(bucket.manifests)[name := bucket.manifests[name]]
                && ListedWith(bucket.manifests[name], parts, known + added))
    ensures r.Err? ==>
              match r.error
              case SizeMismatch(h) => h in known && h in added && known[h] != added[h]
              case MissingSize(h) => h in Hashes(parts) && h !in known && h !in added
              case ManifestExists => name in old(bucket.manifests) && bucket.manifests == old(bucket.manifests)
              case WriteFailed => true
              case _ => false
  {
    var sizes := MergeSizes(known, added);
    if sizes.Err? {
      return Err(sizes.error);
    }
    var listed := ManifestParts(parts, sizes.value);
    if listed.Err? {
      return Err(listed.error);
    }
    assert ListedWith(listed.value, parts, known + added);
    var write := bucket.WriteManifest(name, listed.value);
    assert bucket.manifests == old(bucket.manifests)
           || bucket.manifests == old(bucket.manifests)[name := listed.value];
    r := if write.Ok? then Ok(listed.value) else Err(write.error);
  }

  /** The plan of a run, before its uploads. */
  predicate Planned(run: Run, dirs: Dirs, blobs: Blobs) {
    && SkippedByHead(run, blobs) && Needed(run) <= run.staged.Keys && dirs == DirsOf(run)
    && run.transfers == map[] && run.uploaded == map[]
  }

  /** From the uploads to the manifest. */
  method Commit(bucket: Bucket, name: Name, dirs: Dirs, known: Sizes, skipped: Sizes, parts: seq<PartInfo>,
                l: Limits, ghost plan: Run)
      returns (r: Result<seq<ManifestPart>, SnapshotError>, ghost run: Run)
    requires l.concurrency >= 1 && l.minChunk > 0 && l.maxChunk > 0
    requires plan.known == known && plan.skipped == skipped && plan.parts == parts
    requires Planned(plan, dirs, bucket.blobs)
    modifies bucket
    ensures run == plan.(transfers := run.transfers, uploaded := run.uploaded)
    ensures Attempt(run, old(bucket.blobs), bucket.blobs)
    ensures Ending(run, name, old(bucket.manifests), bucket.manifests, r)
    ensures bucket.faults >= old(bucket.faults)
    ensures r.Err? ==> bucket.faults > old(bucket.faults) || Unarchivable(dirs) || name in old(bucket.manifests)
  {
    hide Whole;
    hide Unarchivable;
    hide Moved;
    hide Untouched;
    hide ListedWith;
    hide Hashes;
    ghost var before := bucket.blobs;
    var uploads;
    ghost var ts;
    uploads, ts := UploadPartArchives(bucket, dirs, l);
    if uploads.Err? {
      run := plan.(transfers := ts);
      PlanAttempted(plan, run, dirs, before, bucket.blobs);
      return Err(uploads.error), run;
    }
    run := plan.(transfers := ts, uploaded := uploads.value);
    PlanAttempted(plan, run, dirs, before, bucket.blobs);
    r := WriteListed(bucket, name, parts, known, uploads.value + skipped);
    NoSizeError(run, before, bucket.blobs);
  }

  lemma PlanAttempted(plan: Run, run: Run, dirs: Dirs, before: Blobs, after: Blobs)
    requires Planned(plan, dirs, before) && run == plan.(transfers := run.transfers, uploaded := run.uploaded)
    requires Stored(before, after, dirs, run.transfers) && Reported(dirs, run.transfers, run.uploaded)
    ensures Attempt(run, before, after) && DirsOf(run) == dirs
  {
    hide Stored;
    hide Reported;
    hide First;
    hide Hashes;
    assert DirsOf(run) == DirsOf(plan);
  }

  /** No known size is contradicted, and no size is missing. */
  lemma NoSizeError(run: Run, before: Blobs, after: Blobs)
    requires Attempt(run, before, after) && Done(run)
    ensures run.known.Keys !! run.uploaded.Keys + run.skipped.Keys
    ensures Hashes(run.parts) <= run.known.Keys + run.uploaded.Keys + run.skipped.Keys
  {
    hide Moved;
    hide Untouched;
    hide Whole;
    hide First;
    hide Hashes;
    assert run.transfers.Keys == DirsOf(run).Keys == Needed(run);
  }

  lemma KnownStays(plan: Run, run: Run, manifests: Manifests)
    requires KnownFrom(plan, manifests) && run == plan.(transfers := run.transfers, uploaded := run.uploaded)
    ensures KnownFrom(run, manifests)
  {
  }

  lemma EndingWritten(run: Run, name: Name, before: Manifests, after: Manifests,
                      r: Result<seq<ManifestPart>, SnapshotError>)
    requires Ending(run, name, before, after, r) && after != before
    ensures Done(run) && name in after && ListedWith(after[name], run.parts, SizesOf(run))
  {
  }

  /** The errors of a run that has not come to its uploads. */
  predicate Early(e: SnapshotError) {
    e.QueryFailed? || e.KnownFailed? || e.PartsDisappeared? || e.MetadataFailed? || e.NotStaged?
  }

  lemma LatestListed(names: seq<Name>, prefix: seq<u8>, latest: Option<Name>, manifests: Manifests)
    requires (forall n :: n in names <==> n in manifests) && Latest.Chosen(names, prefix, latest)
    ensures IsLatest(manifests, prefix, latest)
  {
    hide Latest.Less;
  }

  /** What the steps before the uploads ensure makes a plan. */
  lemma MakesPlan(plan: Run, candidates: map<Hash, PartInfo>, dirs: Dirs, blobs: Blobs)
    requires plan.transfers == map[] && plan.uploaded == map[]
    requires candidates.Keys == Hashes(plan.first) - plan.known.Keys
    requires forall h :: h in candidates ==> candidates[h] == First(plan.first, h)
    requires forall h :: h in plan.skipped ==>
               && h in candidates && candidates[h].bytesOnDisk >= HEAD_CHECK_THRESHOLD
               && h in blobs && plan.skipped[h] == |blobs[h]|
    requires Needed(plan) <= plan.staged.Keys && dirs.Keys == Needed(plan)
    requires forall h :: h in dirs ==> dirs[h] == plan.staged[h]
    ensures Planned(plan, dirs, blobs)
  {
    hide First;
    hide Hashes;
    assert dirs == DirsOf(plan);
  }

  /** The cause of an error before the uploads. */
  predicate Caused(e: SnapshotError, news: seq<Answer>, faulty: bool) {
    match e
    case QueryFailed => !Answered(news)
    case KnownFailed => faulty
    case PartsDisappeared => Gone(news) >= 5
    case MetadataFailed => Failures(news) == 5
    case NotStaged(_) => Failures(news) > 0
    case _ => false
  }

  /**
   * The plan is made of the server's answers: its first part list is the first, its last the
   * last one, the one whose metadata were captured, and every staged part was answered.
   */
  ghost predicate Follows(plan: Run, news: seq<Answer>) {
    && news != [] && news[0] == Parts(Some(plan.first)) && plan.parts == LastParts(news, [])
    && news[|news| - 1] == Metadata(plan.parts, true) && FromLog(news, plan.staged) && Answered(news)
  }

  /** The blobs of the latest manifest, with their sizes. */
  method FindKnown(bucket: Bucket, prefix: seq<u8>) returns (known: Option<Sizes>, ghost latest: Option<Name>)
    modifies bucket`faults
    ensures known.None? ==> bucket.faults > old(bucket.faults)
    ensures known.Some? ==>
              && bucket.faults == old(bucket.faults) && IsLatest(bucket.manifests, prefix, latest)
              && match latest
                 case None => known.value == map[]
                 case Some(n) => n in bucket.manifests && known.value == KnownSizes(bucket.manifests[n])
  {
    hide IsLatest;
    hide Latest.Chosen;
    latest := None;
    var names := bucket.ListManifestNames();
    if names.None? {
      return None, latest;
    }
    var found := Latest.LatestName(names.value, prefix);
    latest := found;
    LatestListed(names.value, prefix, latest, bucket.manifests);
    LatestThere(bucket.manifests, prefix, latest);
    if found.None? {
      return Some(map[]), latest;
    }
    var listed := bucket.ReadManifest(found.value);
    if listed.None? {
      return None, latest;
    }
    var sizes := LoadKnown(listed.value);
    known := Some(sizes);
  }

  lemma LatestThere(manifests: Manifests, prefix: seq<u8>, latest: Option<Name>)
    requires IsLatest(manifests, prefix, latest)
    ensures latest.Some? ==> latest.value in manifests
  {
  }

  /**
   * Everything before the uploads; the bucket is only read. HEAD finds every large blob that is
   * there unless a request fails, and a failure always has its cause in an answer or a request.
   */
  method Prepare(server: Server, bucket: Bucket, prefix: seq<u8>)
      returns (r: Result<(Dirs, Sizes, Sizes, seq<PartInfo>), SnapshotError>, ghost plan: Run, ghost news: seq<Answer>)
    modifies server, bucket`faults
    ensures server.log == old(server.log) + news && bucket.faults >= old(bucket.faults)
    ensures r.Err? ==> Caused(r.error, news, bucket.faults > old(bucket.faults))
    ensures r.Ok? ==> r.value == (DirsOf(plan), plan.known, plan.skipped, plan.parts)
    ensures r.Ok? ==> Planned(plan, DirsOf(plan), bucket.blobs) && Follows(plan, news)
    ensures r.Ok? ==> IsLatest(bucket.manifests, prefix, plan.latest) && KnownFrom(plan, bucket.manifests)
    ensures r.Ok? && bucket.faults == old(bucket.faults) ==> AllFound(plan, bucket.blobs)
  {
    hide First;
    hide Hashes;
    hide DirsOf;
    hide SkippedByHead;
    hide IsLatest;
    hide FromLog;
    hide LastParts;
    hide Queries;
    hide Gone;
    hide Failures;
    hide Answered;
    hide AllFound;
    plan := Run(None, [], [], map[], map[], map[], map[], map[]);
    var first := server.QueryActiveParts();
    news := [Parts(first)];
    NothingLogged([]);
    LogNext([], Parts(first), []);
    assert [] + [Parts(first)] == news;
    if first.None? {
      return Err(QueryFailed), plan, news;
    }
    ghost var latest;
    var found;
    found, latest := FindKnown(bucket, prefix);
    if found.None? {
      return Err(KnownFailed), plan, news;
    }
    var known := found.value;
    var candidates := PartsToUpload(first.value, known.Keys);
    var skipped := HeadCheckExisting(bucket, candidates);
    var staging;
    ghost var passes;
    staging, passes := StageAll(server, first.value, known.Keys);
    LogConcat(news, passes, []);
    assert old(server.log) + news + passes == old(server.log) + (news + passes);
    news := news + passes;
    if staging.Err? {
      return Err(staging.error), plan, news;
    }
    var (stagedFor, staged) := staging.value;
    var capture;
    ghost var captures;
    capture, captures := CaptureMetadata(server, stagedFor);
    LogConcat(news, captures, []);
    assert old(server.log) + news + captures == old(server.log) + (news + captures);
    StagedBetween([Parts(first)], passes, captures, staged);
    ghost var all := news + captures;
    assert all[0] == Parts(first) && (captures != [] ==> all[|all| - 1] == captures[|captures| - 1]);
    news := all;
    if capture.Err? {
      return Err(capture.error), plan, news;
    }
    var (parts, again) := capture.value;
    var need := PartsToUpload(parts, known.Keys);
    var dirs := PlanUploads(need.Keys, staged, skipped.Keys);
    if dirs.Err? {
      return Err(dirs.error), plan, news;
    }
    plan := Run(latest, first.value, parts, known, skipped, staged, map[], map[]);
    MakesPlan(plan, candidates, dirs.value, bucket.blobs);
    FoundAll(plan, candidates, bucket.blobs);
    r := Ok((dirs.value, known, skipped, parts));
  }

  /** Every large part of the first list whose blob is there is skipped. */
  predicate AllFound(plan: Run, blobs: Blobs) {
    forall h :: h in blobs && h in Hashes(plan.first) && h !in plan.known && First(plan.first, h).bytesOnDisk >= 524288
                ==> h in plan.skipped
  }

  lemma FoundAll(plan: Run, candidates: map<Hash, PartInfo>, blobs: Blobs)
    requires candidates.Keys == Hashes(plan.first) - plan.known.Keys
    requires forall h :: h in candidates ==> candidates[h] == First(plan.first, h)
    ensures (forall h :: h in candidates && candidates[h].bytesOnDisk >= 524288 && h in blobs ==> h in plan.skipped)
            ==> AllFound(plan, blobs)
  {
    hide First;
    hide Hashes;
  }

  lemma StagedBetween(front: seq<Answer>, passes: seq<Answer>, captures: seq<Answer>, staged: Dirs)
    requires FromLog(passes, staged)
    ensures FromLog(front + passes + captures, staged)
  {
    forall h | h in staged
      ensures exists part: PartInfo :: part.hash == h && Staging(part, Some(staged[h])) in front + passes + captures
    {
      var part: PartInfo :| part.hash == h && Staging(part, Some(staged[h])) in passes;
      assert Staging(part, Some(staged[h])) in front + passes + captures;
    }
  }

  /**
   * `create_snapshot`. Whatever part lists the queries return: before the uploads it changes
   * nothing; from there on blobs and manifests change as `Attempt` and `Ending` say, so that
   * sizes never conflict and are never missing; a manifest that is written is complete, even
   * when a failure is reported; and a needed part can be found unstaged only after a fresh
   * part list during metadata capture. It fails only with a cause: an answer of the server, a
   * failed request, a file that cannot be archived, or a name that is taken.
   */
  method CreateSnapshot(server: Server, bucket: Bucket, name: Name, prefix: seq<u8>, l: Limits)
      returns (r: Result<seq<ManifestPart>, SnapshotError>, ghost run: Run, ghost reached: bool,
               ghost news: seq<Answer>)
    requires l.concurrency >= 1 && l.minChunk > 0 && l.maxChunk > 0
    modifies server, bucket
    ensures server.log == old(server.log) + news && bucket.faults >= old(bucket.faults)
    ensures !reached ==>
              && r.Err? && Caused(r.error, news, bucket.faults > old(bucket.faults))
              && bucket.blobs == old(bucket.blobs) && bucket.manifests == old(bucket.manifests)
    ensures reached ==>
              && IsLatest(old(bucket.manifests), prefix, run.latest) && KnownFrom(run, old(bucket.manifests))
              && Follows(run, news)
              && Attempt(run, old(bucket.blobs), bucket.blobs)
              && Ending(run, name, old(bucket.manifests), bucket.manifests, r)
    ensures reached && r.Err? ==>
              bucket.faults > old(bucket.faults) || Unarchivable(DirsOf(run)) || name in old(bucket.manifests)
    ensures reached && bucket.faults == old(bucket.faults) ==> AllFound(run, old(bucket.blobs))
    ensures bucket.manifests != old(bucket.manifests) ==>
              name in bucket.manifests && Complete(bucket.manifests[name], run, bucket.blobs)
  {
    hide *;
    ghost var before := bucket.blobs;
    reached := false;
    var plan;
    plan, run, news := Prepare(server, bucket, prefix);
    if plan.Err? {
      return Err(plan.error), run, reached, news;
    }
    var (dirs, known, skipped, parts) := plan.value;
    reached := true;
    ghost var prepared := run;
    r, run := Commit(bucket, name, dirs, known, skipped, parts, l, prepared);
    KnownStays(prepared, run, old(bucket.manifests));
    PlanStays(prepared, run, news, before);
    if bucket.manifests != old(bucket.manifests) {
      EndingWritten(run, name, old(bucket.manifests), bucket.manifests, r);
      ListedComplete(run, before, bucket.blobs, bucket.manifests[name]);
    }
  }

  /** The uploads change nothing in what the plan says. */
  lemma PlanStays(plan: Run, run: Run, news: seq<Answer>, blobs: Blobs)
    requires run == plan.(transfers := run.transfers, uploaded := run.uploaded)
    ensures Follows(run, news) <==> Follows(plan, news)
    ensures AllFound(run, blobs) <==> AllFound(plan, blobs)
    ensures DirsOf(run) == DirsOf(plan)
  {
  }
}

# chbk: a verified model of the backup store

chbk stores ClickHouse parts as ZIP blobs keyed by hash, names them in write-once manifests,
and deletes what no manifest needs. This project models the code between a staged directory
and a restored one, and the code that deletes blobs in between, around one promise: *every part
of every manifest can be restored*. `Restorable` states it of the whole bucket and says exactly
which snapshot runs keep it; `HistoryExactly` is the promise over any sequence of snapshot runs and
collections; `GcGrace` and `GcExact` treat backups and GC at the same time, for the existence
of blobs. What the code does not keep has a lemma with a concrete run, and a
condition under which it is kept.

## What is modelled

| part of the story | files |
|---|---|
| bytes, text, checksums | `Bytes.dfy`, `Text.dfy`, `Crc32.dfy`, `Crc32Law.dfy`, `Wrappers.dfy`, `Sets.dfy`, `Streams.dfy` |
| the ZIP writer and the reader that never seeks | `ZipFormat.dfy`, `ZipPath.dfy`, `ZipWriter.dfy`, `ZipReader.dfy`, `Dest.dfy` |
| the format byte by byte, and what the reader accepts and refuses | `ZipLayout.dfy`, `ZipIntegrity.dfy`, `ZipDamage.dfy` |
| what the reader makes of what the writer wrote, whole or cut short | `ZipRoundTrip.dfy`, `ZipTheorems.dfy`, `ZipTruncation.dfy`, `ZipPrefix.dfy`, `ZipFailure.dfy`, `ZipSize.dfy`, `ZipIndex.dfy` |
| the multipart pipeline and its chunk sizes | `Multipart.dfy`, `ChunkSize.dfy` |
| one part on its way to the store and back | `PartUpload.dfy` |
| the snapshot commit, and the latest manifest | `Snapshot.dfy`, `Latest.dfy` |
| the promise over snapshot runs and collections | `Restorable.dfy` |
| garbage collection over blobs and manifests | `GcStore.dfy`, `GcSafety.dfy`, `GcGrace.dfy`, `GcThreat.dfy`, `GcExact.dfy`, `GcRaces.dfy`, `GcLive.dfy`, `GcOps.dfy`, `Keys.dfy` |
| the GC lock, and GC runs under it | `GcLock.dfy`, `GcLockExact.dfy`, `GcLockOps.dfy`, `GcSerial.dfy` |
| tiered retention | `Retention.dfy` |

Two styles appear side by side. Code that changes things step by step (readers, writers, the
pipeline, the commit, the GC and lock operations) is written as methods and classes, each proved
against a specification function or a state machine; the properties are then proved of those.
Everything the environment decides (short reads, completion order, lost replies, part lists,
other processes) is a nondeterministic choice, so a method's contract holds for all of them.
`GcStore` and `GcLock` are state machines whose steps are single store calls; the methods of
`GcOps` and `GcLockOps` take those steps one by one and let other processes take any of theirs in
between, so what is proved of all runs holds for the commands.

What the environment does is written down where it matters: failed requests, reads and LISTs, lost
locks and the server's answers are recorded in ghost logs and counters (`faults`, `log`, `own`), and
an operation may fail only with a cause recorded there. So "succeeds unless something fails" is part
of the contracts, not only "if it succeeds, then". Constants and byte layouts that a format, a key
or a name depends on are stated again as literal bytes and numbers, apart from the functions that
produce them (`ZipLayout`, `Crc32Law`, `KeyLayout`, `AutoNameReads`, `DayExactly`, `ChunkExactly`).

## What the code does not keep

- A file of exactly 0xFFFF_FFFF bytes that starts at or below offset 0xFFFF_FFFF is written without
  the Zip64 extra and refused by the reader. The round trip holds exactly without such files, and
  otherwise restores exactly the files before the first one (`RoundTrip`, `AmbiguousSizeFails`).
- An archive cut up to three bytes behind an entry extracts without an error, with only the entries
  before the cut (`Truncation`).
- A failing writer's bytes are completed as an object all the same, because the multipart upload is
  completed before the writer's result is looked at; they are no archive of anything
  (`FailedWriterLeavesPart`, `SpoiltExactly`). They extract without an error, to a part of the files,
  exactly when a name was refused (`LossIsSilentExactly`, `RefusedNameLosesFiles`).
- A later run takes such an object for the blob when HEAD finds it, and writes a manifest that cannot
  be restored (`SkipsWhatFailureLeft`), or restores too little without an error (`RestoresTooLittle`).
- A part that an older manifest names and the latest does not is uploaded again when it is small or its
  HEAD request fails, so a failing writer can overwrite the older snapshot's intact blob
  (`OverwritesOlder`). `SnapshotKeepsExactly` has the exact condition for both.
- `gc-live` goes on after a failed manifest delete and can take the blobs of a snapshot that remains
  (`LiveDeleteFailure`), exactly when that manifest still names a blob it is to delete (`FailedDropExact`).
- The grace period does not protect a backup that uploads again a hash whose old orphan `gc-all` has
  already listed: the delete follows the listing's age (`OverwriteRace`). Nor does it protect an old
  orphan found by a HEAD check (`HeadSkipRace`). Both commits name a blob that is `Exposed`, and that is
  exactly when a commit can be followed by a loss, also with `rm-snapshot` and `gc-live` under way
  (`CommitExact`, `DangerExact`). With a sufficient grace period a young blob, also one found by HEAD,
  is not exposed to `gc-all` (`ReliableIsUnexposed`); `rm-snapshot` deletes without regard to age, also a
  blob that a backup has just taken over from the snapshot it removes (`RemovalRace`).
- Two instances can hold the GC lock at once, through `break_stale` (`TwoHolders`): exactly when one
  deletes the lock object while another is live (`ExclusionExact`). Without that, GC runs work one at
  a time (`OneAtATime`). What a successful refresh certifies is always true (`CertifiedOwnership`).
- A key with segments behind the hash selects the hash, so the key deleted is another one
  (`LongerKeySelectsAnother`); exactly the keys of five segments print back (`PrintsBackExactly`).
- A blob whose first two digits are not lower case is in none of the 256 shards that are listed, so
  `gc-all` never deletes it (`ScannedExactly`, `CandidateExactly`). A shard that cannot be listed is
  skipped, and the command still succeeds (`failed` in the contract of `ScanAndDelete`).
- The name prefix of a replica matches other replicas' names in the cases `MatchesExactly` lists, and the
  latest manifest may be theirs (`OtherReplicaChosen`), although the comment at src/snapshots.rs:602-603
  takes the greatest name for the latest of the replica. Without underscores in shards and replicas it is
  (`PlainMatchesOwn`, `LatestByTime`).
- Among live snapshots tied as newest of a day, the order in which manifests arrive decides which one
  stays (`TieFollowsListing`); without such a tie it has no influence (`OrderIrrelevantExactly`).

## Model

| member | source | states |
|---|---|---|
| Crc32.UpdateConcat | src/part_zip.rs:174-193 | hashing a file piece by piece gives the checksum of the whole, whatever the pieces |
| Crc32Law.IsRemainder | src/part_zip.rs:174-193 | the checksum that header, descriptor and directory carry is, apart from its final inversion, a remainder of the message with its first 32 bits inverted, modulo the reflected generator, over polynomials with bit coefficients |
| Crc32Law.OnlyRemainder | src/part_zip.rs:174-193 | and it is the only one: whatever quotient and remainder satisfy the equation, the remainder is the checksum |
| Crc32Law.GeneratorReflected | src/part_zip.rs:174-193 | the generator is that of CRC-32 (IEEE 802.3), given by its exponents 32, 26, 23, 22, 16, 12, 11, 10, 8, 7, 5, 4, 2, 1, 0, and the reflected one has the mirrored exponents |
| Crc32Law.Residue | src/part_zip.rs:174-193 | data followed by their own checksum leave the same residue, whatever the data |
| Streams.Source.ReadExact | src/part_zip.rs:575-603 | short reads add up to exactly the bytes asked for, or to an error at the end of the input |
| Dest.MakeFileSound | src/part_zip.rs:386-393 | in a directory tree, a file can be created exactly on a path without a NUL where no directory stands and no file is in the way of its parents; the result is a directory tree again, with this file empty and every other file unchanged; a failure touches no file |
| ZipPath.NameRoundTrip | src/part_zip.rs:443-479 | every name the writer makes is valid UTF-8, is no directory name, and leads the reader to the path the file came from |
| ZipPath.NameExactly | src/part_zip.rs:443-479 | a path gets a name if and only if its components are normal ones and `.`, one at least is normal, and none has a backslash; and which error it has otherwise |
| ZipPath.NameGrows | src/part_zip.rs:458-479 | the text of a name: one more component adds a slash and its bytes, and `.` adds nothing |
| ZipPath.PlaceOne | src/part_zip.rs:443-456 | where a name without a slash leads: nowhere for `.`, an error for `..` and for the empty one |
| ZipPath.PlaceMore | src/part_zip.rs:443-456 | where all others lead: a slash in front is refused, a second or last one has no effect, and else what follows it is looked up below what precedes it; any `..` is refused |
| ZipWriter.CopyFile | src/part_zip.rs:175-193 | exactly the stated number of bytes is copied and hashed for every pattern of reads; a shorter file is an error; the checksum is that of `Crc32Law` |
| ZipWriter.WriteEntry | src/part_zip.rs:124-215 | one round emits the entry's header, data and descriptor at the given offset; with the first applicable error it has emitted exactly the part of them that precedes the failure |
| ZipWriter.LayoutConcat | src/part_zip.rs:120-215 | appending entries appends their bytes at the running offset and their index records |
| ZipWriter.ArchivedExactly | src/part_zip.rs:120-193 | files can be archived if and only if each has a name, of at most 65535 bytes, and can be opened and read to the size stat has given; then the entries have these names and the first bytes of these files |
| ZipWriter.WriteEntries | src/part_zip.rs:120-217 | the entry loop emits all entries with correct running offsets and keeps the matching index; on the first file's error it has emitted the entries before it and a part of its own |
| ZipWriter.WriteCentral | src/part_zip.rs:219-272 | the directory loop emits the index in order and advances the offset by its length |
| ZipWriter.WriteEnd | src/part_zip.rs:274-321 | Zip64 end records exactly when a count, size or offset needs them, then the end record |
| ZipWriter.WriteZip | src/part_zip.rs:110-324 | the bytes emitted are the archive of the files and the result is their exact number; otherwise the first bad file's error, and exactly the bytes emitted until then |
| ZipWriter.EstimateZipSize | src/part_zip.rs:84-106 | the loop computes the sum that the size accounting is about |
| ZipReader.ParseZip64Loop | src/part_zip.rs:504-526 | the indexed walk over extra blocks finds the sizes of the first Zip64 block, and its errors |
| ZipReader.ReadHeader | src/part_zip.rs:341-373 | reading a local header in pieces gives what the bytes say, with the same error in each malformed case |
| ZipReader.ReadDescriptor | src/part_zip.rs:528-555 | the descriptor with or without its signature |
| ZipReader.CopyData | src/part_zip.rs:392-407 | the file receives the data for every pattern of short reads and the checksum is that of all of it |
| ZipReader.ExtractBody | src/part_zip.rs:392-425 | data, descriptor and the checks on them, including what is left on disk on each error |
| ZipReader.ExtractEntry | src/part_zip.rs:340-426 | one local entry, file or directory, does to the tree what its bytes say |
| ZipReader.ExtractZip | src/part_zip.rs:328-441 | for every chunking of the input, result, remaining input and tree on disk are those of the specification, also when it fails |
| ZipReader.ExtractGrows | src/part_zip.rs:328-441 | whatever the bytes are, extraction leaves a directory tree and removes no file and no directory |
| ZipLayout.EntryRecord | src/part_zip.rs:131-206 | every byte of what is written for a file, at its place: signature 50 4B 03 04, version 45, flag bit 3, method 0, sizes or their markers, lengths, name, Zip64 extra, data, and the descriptor with the checksum of exactly the data |
| ZipLayout.CentralRecord | src/part_zip.rs:219-272 | every byte of a directory entry, with the checksum, sizes and offset or their markers |
| ZipLayout.EndRecordLayout | src/part_zip.rs:303-321 | every byte of the end record |
| ZipLayout.End64Layout | src/part_zip.rs:277-301 | when the Zip64 end records are written, and every byte of them |
| ZipIntegrity.EntryIsAt | src/part_zip.rs:340-426 | for all bytes behind a local signature, what one step does, said of positions in the input alone: which fields are looked at where, in which order, which file gets which bytes, which error each malformed case has |
| ZipIntegrity.NoEntryAt | src/part_zip.rs:334-441 | and for all bytes without one: at the trailer signatures and with fewer than four bytes left it ends, at any others it fails |
| ZipIntegrity.AcceptedIsIntact | src/part_zip.rs:410-425 | for all bytes: if a local entry is accepted, every file is as it was, or it holds the data of the entry, and the checksum in the descriptor, or in the header without bit 3, is the CRC-32 of exactly these bytes, the sizes agreeing with the header |
| ZipIntegrity.RestoredIsIntact | src/part_zip.rs:328-441 | for all bytes that extract without an error: every file in the tree was there before, unchanged, or holds the data of an intact entry of the input |
| ZipDamage.DamagedEntry | src/part_zip.rs:415-419 | a written entry whose data are replaced by others of the same length, whatever follows: it is refused with a checksum error if and only if the checksums differ |
| ZipDamage.ForgedEntry | src/part_zip.rs:420-425 | a written entry whose descriptor has any other sizes, its data and checksum intact, whatever follows: it is refused with a size error if and only if one of them differs from the header |
| ZipDamage.DamagedArchive | src/part_zip.rs:328-441 | an archive in which the data of any one file are replaced by others with another checksum: extraction fails with that error behind it, and the files before it are restored |
| ZipRoundTrip.HeaderRoundTrip | src/part_zip.rs:131-170 | a written local header reads back to its name and sizes; it is refused exactly when its size is the Zip64 marker |
| ZipRoundTrip.DescriptorRoundTrip | src/part_zip.rs:195-206 | a written descriptor reads back, in both widths, whatever follows |
| ZipRoundTrip.EntryRoundTrip | src/part_zip.rs:124-206 | a written entry is read back in full and nothing beyond it, whatever signatures its data holds |
| ZipTheorems.ExtractEntries | src/part_zip.rs:334-441 | entries followed by any trailer extract one after the other up to the first ambiguous one |
| ZipTheorems.ExtractArchive | src/part_zip.rs:110-441 | exactly what extraction makes of any archive |
| ZipTheorems.RoundTrip | src/part_zip.rs:110-441 | for all files of a directory tree: extraction succeeds if and only if no size is ambiguous, restores exactly the files, and stops 4 bytes into the central directory; else exactly the files before the first ambiguous one |
| ZipTruncation.ReadStepExtends | src/part_zip.rs:334-441 | more input never changes a step that has completed |
| ZipTruncation.CutEntryFails | src/part_zip.rs:340-426 | an entry cut anywhere behind its signature is an error |
| ZipTruncation.ExtractCut | src/part_zip.rs:334-441 | outcome and files for every prefix of an archive |
| ZipTruncation.CleanCutMeaning | src/part_zip.rs:334-338 | the accepted cuts are those up to three bytes behind an entry, and those in the trailer |
| ZipTruncation.WholeEntriesMeaning | src/part_zip.rs:334-441 | the files restored are those whose entries end before the cut |
| ZipTruncation.Truncation | src/part_zip.rs:334-441 | for every prefix: success if and only if the cut is at an entry boundary plus at most three bytes or in the trailer, and then exactly the whole entries |
| ZipFailure.PartialIsCut | src/part_zip.rs:155-215 | what is emitted of a file that is missing or too short is the beginning of the entry it would have had |
| ZipFailure.FailureExtracts | src/part_zip.rs:110-441 | for every directory tree that cannot be archived: what was emitted extracts without an error if and only if the first failing file fails on its name and no size before it is ambiguous, and then to exactly the files before it |
| ZipSize.SizeAccounting | src/part_zip.rs:84-324 | written size minus estimate is 56 for every entry that needs Zip64 for its offset alone, plus 76 when the end records need Zip64 for less than the count |
| ZipSize.AmbiguousSizeFails | src/part_zip.rs:128-151 | a single file of 0xFFFF_FFFF bytes is written and cannot be extracted |
| ZipPrefix.SameEntries | src/part_zip.rs:120-324 | entries followed by a trailer begin an emission only if they are the entries of its files |
| ZipPrefix.CompleteExactly | src/part_zip.rs:110-324 | the first n bytes the writer emits are the archive of some files if and only if all files were archived, n is everything, and the entries are the same; so a part of an archive, or what a failure left, is no archive of anything |
| ZipIndex.DirectoryFound | src/part_zip.rs:274-321 | a reader starting at the end records finds the directory at its recorded offset with its recorded size and count |
| ZipIndex.LocatedRoundTrip | src/part_zip.rs:220-272 | a central entry reads back with name, checksum, sizes and offset, Zip64 or not |
| ZipIndex.DirectoryRoundTrip | src/part_zip.rs:219-272 | the whole directory reads back entry by entry |
| ZipIndex.EntryAgrees | src/part_zip.rs:124-215 | at an entry's offset stands a local entry with the same name, sizes and checksum |
| ZipIndex.IndexAgreement | src/part_zip.rs:217-321 | the three together: end records, directory and local entries agree, away from marker-valued fields |
| Multipart.CutShape | src/storage.rs:340-376 | the parts a stream is cut into join to the stream, are numbered consecutively, and only the last is short |
| Multipart.Reader.Fill | src/storage.rs:343-349 | the buffer is filled for every pattern of short reads; it is short only at the end of the stream |
| Multipart.Reader.Step | src/storage.rs:340-373 | what has been sent and what is left to cut are always the cut of the whole stream |
| Multipart.Reader.Receive | src/storage.rs:411-412 | parts arrive in the order sent, none lost or doubled; the end is seen only when the reader has ended |
| Multipart.JoinNext | src/storage.rs:396-408 | whichever task ends, its part moves from in flight to completed and its size is counted; a failure is passed on |
| Multipart.JoinUntil | src/storage.rs:395-478 | the two join loops keep every received part accounted for |
| Multipart.SpawnAll | src/storage.rs:394-459 | never more tasks in flight than the limit, and at the end every part sent is in flight or completed |
| Multipart.OrderedIsRange | src/storage.rs:480 | sorted part numbers are 1 to n |
| Multipart.SortedLength | src/storage.rs:480 | the completion order does not change the byte count |
| Multipart.AllCompleted | src/storage.rs:480-512 | the sorted parts assemble to the input stream |
| Multipart.PutObjectMultipartReader | src/storage.rs:311-513 | it succeeds if and only if no request and no read of the stream fails and the stream is not empty; success means the object is the whole stream and the result its length, its parts stored as cut; after a failed part or reader the object is untouched; after an unreported completion it is untouched or whole |
| ChunkSize.ChunkBounds | src/storage.rs:156-158 | for every configuration and estimate, parts are between 5242880 and 5368709120 bytes |
| ChunkSize.ClampedIsNearest | src/storage.rs:156-159 | a configured value within its bounds is taken as it is, any other is replaced by the nearest bound |
| ChunkSize.ChunkExactly | src/storage.rs:969-974 | the chunk size is the only one within its limits that every intended part fills, unless it is the least allowed, and that would not be filled with one byte more, unless it is the greatest |
| ChunkSize.PartSizes | src/storage.rs:323-376 | every part but the last is at least 5 MiB |
| ChunkSize.CutCount | src/storage.rs:340-376 | the number of parts is the length divided by the chunk size, rounded up |
| ChunkSize.PartCountBound | src/storage.rs:970-974 | at most target plus rounding plus estimate error parts, or what the greatest chunk size forces |
| PartUpload.UploadPart | src/snapshots.rs:493-538 | it succeeds if and only if no request and no read fails, every file can be archived and everything arrives, and then the parts are cut by the estimated size; which outcomes it has else: how many bytes came through the pipe and whether the completion took effect decide the stored object, and each error comes only in its own case |
| PartUpload.IntactExactly | src/snapshots.rs:493-538 | afterwards the object is as it was or complete if and only if the completion took no effect, or every file could be archived and all bytes arrived, or the same incomplete bytes stood there before |
| PartUpload.SpoiltExactly | src/snapshots.rs:493-538 | with all emitted bytes delivered, an upload spoils the object if and only if some file cannot be archived and the completion takes effect |
| PartUpload.WholeExactly | src/snapshots.rs:493-538 | what a completion puts in place is the archive of some files if and only if the upload was whole and these have the same entries |
| PartUpload.FailedWriterLeavesPart | src/snapshots.rs:510-538 | a writer that fails behind its first bytes can leave them as a complete object that is no archive of anything |
| PartUpload.LossIsSilentExactly | src/snapshots.rs:510-538 | what a failed writer can leave as a complete object extracts without an error if and only if the first failing file fails on its name, no ambiguous size before it; only the files before it come back |
| PartUpload.RefusedNameLosesFiles | src/part_zip.rs:458-479 | such inputs: behind any good files one whose name is refused, whatever follows; the good files are all that comes back, without an error |
| PartUpload.UploadThenExtract | src/snapshots.rs:493-538 | an upload followed by an extraction: the upload succeeds if and only if no request and no read fails and the files can be archived, and then exactly the files come back if and only if no size is ambiguous |
| Snapshot.PartsToUpload | src/snapshots.rs:631-645 | one part for every hash not known |
| Snapshot.FirstIsFirst | src/snapshots.rs:631-645 | that part is the first with its hash |
| Snapshot.HeadCheckExisting | src/snapshots.rs:411-457 | only candidates of at least 524288 bytes are skipped, and only when the object exists, with its size; without a failed request, all of them |
| Snapshot.Stage | src/snapshots.rs:338-402 | every needed part is asked for, and is staged or missing as the server has answered, never both |
| Snapshot.StageAll | src/snapshots.rs:741-806 | success means everything the latest part list needs is staged, as answered; it fails only when a part list cannot be had, or when parts were gone in each of five passes, with four fresh lists in between |
| Snapshot.CaptureMetadata | src/snapshots.rs:816-842 | the part list it ends with is the one whose metadata were captured and the latest answered; it is replaced after a failed attempt alone; it fails only when a list cannot be had, or after five failures |
| Snapshot.PlanUploads | src/snapshots.rs:844-859 | succeeds if and only if everything needed is staged or skipped, and then uploads exactly the rest |
| Snapshot.Bucket.Upload | src/snapshots.rs:493-556 | in every outcome the blob is what the transfer makes of it, and no other changes; a size comes back only of a whole archive in place; it fails only with a failed request or a file that cannot be archived |
| Snapshot.UploadPartArchives | src/snapshots.rs:459-563 | also when the run fails: every staged part is moved as its transfer says, every other blob is untouched; success sizes all of them, and sizes are only of whole archives; it fails only with a failed request or a file that cannot be archived |
| Snapshot.LoadKnown | src/snapshots.rs:620-628 | the known sizes are those the latest manifest records |
| Snapshot.KnownFromLast | src/snapshots.rs:620-628 | of several entries of one blob the last counts |
| Snapshot.FindKnown | src/snapshots.rs:612-629 | the known blobs are those of the greatest manifest name with the prefix, read from the bucket, or none when there is no such name; only a failed request keeps it from that |
| Snapshot.MergeSizes | src/snapshots.rs:897-909 | the sizes are merged if and only if none disagrees |
| Snapshot.ManifestParts | src/snapshots.rs:911-926 | the parts are listed in order, each entry with the database, table, name and hash of its part and the size of its blob, if and only if all have one |
| Snapshot.ListingDetermines | src/snapshots.rs:911-926 | a listing determines the part list it was made of, in order and field by field, but for the bytes on disk, and the sizes of its blobs |
| Snapshot.EntriesDiffer | src/snapshots.rs:918-924 | two entries are equal if and only if database, table, name, hash and size of their parts are; exchanged fields make another manifest |
| Snapshot.Bucket.WriteManifest | src/manifest.rs:114-125 | a name is never written twice; a collision is reported only when it was taken before; any other failure is a failed request |
| Snapshot.AllOrigins | src/snapshots.rs:876-909 | every hash of a run whose uploads succeeded has exactly one origin, known, skipped or uploaded whole, and the size it has there |
| Snapshot.NoSizeError | src/snapshots.rs:897-926 | no known size is contradicted and no size is missing, so two of the errors cannot occur |
| Snapshot.Prepare | src/snapshots.rs:647-859 | everything before the uploads: the known blobs are those of the latest manifest by name; success is a plan that finds every needed hash skipped or staged, made of the first and the latest part list answered and of the parts as answered; without a failed request every large blob that is there is skipped; a failure has its cause in an answer of the server or a failed request |
| Snapshot.Commit | src/snapshots.rs:862-945 | in every outcome blobs and manifests change as the relations Attempt and Ending say; no outcome has conflicting or missing sizes; it fails only with a failed request, a file that cannot be archived or a name that is taken |
| Snapshot.CreateSnapshot | src/snapshots.rs:647-945 | for all part lists: nothing changes before the uploads; from there on blobs and manifests change as Attempt and Ending say, failures included; a manifest written lists the parts of the latest list answered, entry by entry with database, table, name and hash, and is complete, also when only its reply was lost; it fails only with a cause: an answer of the server, a failed request, a file that cannot be archived, or a name that is taken |
| Restorable.PartRestores | src/part_zip.rs:328-441 | what the promise means: each part of each manifest extracts to exactly its files, if and only if no size is ambiguous |
| Restorable.MovedExactly | src/snapshots.rs:493-556 | what an upload puts in place is an archive of what the hash stands for if and only if these entries were staged and came through whole |
| Restorable.OldManifests | src/snapshots.rs:459-563 | a run's uploads leave the existing snapshots restorable if and only if each one that takes effect over a blob they name comes through whole |
| Restorable.SnapshotKeepsExactly | src/snapshots.rs:647-945 | for every run of CreateSnapshot that comes to its uploads, successful or not: the promise is kept if and only if that holds and, when the manifest is written, every upload is whole and every blob skipped by HEAD is a whole archive |
| Restorable.OverwritesOlder | src/snapshots.rs:493-538 | a run that breaks it: a small part that an older manifest names and the latest does not is uploaded again, one of its files cannot be archived behind the first bytes, and the older snapshot has lost its blob |
| Restorable.SkipsWhatFailureLeft | src/snapshots.rs:411-457 | two runs that break it: a failed writer leaves a part of an archive, and the next run skips it by HEAD and writes its manifest |
| Restorable.RestoresTooLittle | src/snapshots.rs:411-457 | when the failure was a refused name, that snapshot's part extracts without an error, to the files before it alone |
| Restorable.GcKeeps | src/gc.rs:115-289 | any interleaving of GC runs keeps the promise for the manifests that remain, under the condition of GcSafety |
| Restorable.HistoryExactly | src/snapshots.rs:647-945 | over every sequence of snapshot runs, successful or not, and quiet collections: every part of every manifest can be restored all the time if and only if every snapshot run keeps to the condition of SnapshotKeepsExactly |
| Latest.BeforeIsEarlier | src/manifest.rs:22 | comparing date and time field by field is comparing timestamps |
| Latest.YearsAre | src/manifest.rs:22 | days before a year: 365 for each, and one for every leap year of the Gregorian calendar |
| Latest.EpochIsZero | src/manifest.rs:22 | timestamps are seconds since the beginning of 1970 |
| Latest.AutoNameReads | src/manifest.rs:83-97 | every byte of an automatic name: `live_`, shard, replica, and the fields of the timestamp in four or two decimal digits behind `_y`, `m`, `d`, `_h`, `m` and `s`, then the uuid |
| Latest.FormatOrdered | src/manifest.rs:22 | the formatted timestamps sort like the dates, whatever follows them |
| Latest.NamesOrdered | src/manifest.rs:87-97 | of two automatic names of one replica, the greater is not earlier |
| Latest.LatestName | src/snapshots.rs:615-619 | the greatest name with the prefix, or none exactly when no name has it |
| Latest.MatchesExactly | src/snapshots.rs:615-617 | the prefix of one identity matches an automatic name of another if and only if both are the same text, or the second goes on behind the first and an underscore, or the first goes on behind the second with the start of a timestamp |
| Latest.PlainMatchesOwn | src/snapshots.rs:615-617 | without underscores in shards and replicas exactly the replica's own names match |
| Latest.PlainIsUnmixed | src/snapshots.rs:602-619 | so a listing of automatic names of such replicas meets the condition of LatestByTime |
| Latest.LatestByTime | src/snapshots.rs:602-619 | in a listing in which only the replica's own automatic names have the prefix, the name chosen by filter and maximum is its own and a latest by time; none is chosen exactly when it has none |
| Latest.OtherReplicaRank | src/snapshots.rs:615-617 | exactly when a name of a replica that goes on behind an underscore beats the replica's own, whatever their ages |
| Latest.SameIdentityByTime | src/snapshots.rs:615-617 | two replicas whose identities are the same text are chosen among by time alone |
| Latest.OtherReplicaChosen | src/snapshots.rs:615-617 | two identities whose prefixes collide, and a listing from which the other one's older manifest is chosen |
| Keys.FromHexLoop | src/blob_hash.rs:13-25 | the loop decodes 32 hex digits to 16 bytes and rejects everything else |
| Keys.HexUpToCase | src/blob_hash.rs:13-34 | two texts decode to the same hash if and only if they differ in letter case at most |
| Keys.HexRoundTrip | src/blob_hash.rs:13-34 | 16 bytes printed as digits, upper half first, are read back byte by byte |
| Keys.HexPrintsBack | src/blob_hash.rs:13-34 | what can be read is exactly a text of 32 digits, and its bytes print back to it in lower case |
| Keys.DigitTable | src/blob_hash.rs:27-34 | the sixteen digits and their values |
| Keys.KeyLayout | src/util.rs:22-32 | every byte of a blob's key |
| Keys.ScannedExactly | src/storage.rs:685-706 | the listed shards cover exactly the hashes that start with two lower-case digits |
| GcStore.CandidateExactly | src/gc.rs:553-576 | a blob with a well-formed hash becomes a candidate if and only if it is old enough, in a listed shard, and no referenced hash equals it up to case |
| GcStore.ReliedOnIsThere | src/snapshots.rs:411-457 | what a backup relies on without uploading it exists, or is named by a manifest, when it comes to rely on it; an upload is there with the present time; nothing else can be committed |
| Keys.SelectionExact | src/gc.rs:505-518 | the key of a hash is selected if and only if the hash is well formed and no referenced one equals it up to case |
| Keys.SelectedIsUnreferenced | src/gc.rs:129-130 | dropping malformed referenced hashes never exposes a referenced blob |
| Keys.SelectedPrintsBack | src/util.rs:22-32 | a selected five-segment key is the key its hash prints to |
| Keys.LongerKeySelectsAnother | src/gc.rs:505-518 | a key with more segments selects a hash whose key is another one |
| Keys.PrintsBackExactly | src/gc.rs:505-518 | a selected key is the key its hash prints to if and only if it has five segments |
| GcSafety.SafeStep | src/gc.rs:115-289 | the invariant of every GC phase is kept by every step of every process |
| GcSafety.GcKeepsSnapshots | src/gc.rs:115-289 | every interleaving of any number of GC runs, stopped anywhere and without the lock, keeps all blobs of all remaining manifests, if nothing commits and `gc-live` passes over no failed delete of a manifest that still names a blob it is to delete |
| GcSafety.RunLosesExactly | src/gc.rs:115-289 | over every run without commits, the bucket is complete all the time if and only if no effective delete takes a blob that a present manifest names |
| GcSafety.FailedDropExact | src/gc.rs:273-284 | in every safe state with any processes under way: a failed manifest delete that `gc-live` passes over can cost a blob if and only if the manifest still names one the run is about to delete |
| GcSafety.LiveFailureExact | src/gc.rs:200-289 | `gc-live` alone has a run in which exactly the given manifest deletes fail, and it leaves the bucket complete if and only if these manifests share all their blobs with kept ones |
| GcSafety.LiveDeleteFailure | src/gc.rs:273-284 | a run in which `gc-live` takes the blob of a snapshot that remains |
| GcGrace.ListGuarded | src/gc.rs:525-579 | a deletion candidate is named by no manifest, and no backup relies on having uploaded it |
| GcGrace.ReliableIsThere | src/snapshots.rs:411-457 | a blob that a manifest holds, or that the backup uploaded recently while nothing was about to delete it, or that is young and about to be deleted by nobody, is there and not a candidate |
| GcGrace.GraceStep | src/gc.rs:115-141 | the grace-period invariant is kept by every timed step |
| GcGrace.GraceKeepsSnapshots | src/gc.rs:115-141 | with upload-to-commit plus listing-to-cutoff below the grace period, no interleaving of backups and `gc-all` takes a committed blob, if every committed blob is reliable in that sense when it is committed, young ones found by HEAD included |
| GcThreat.CalmStep | src/gc.rs:115-289 | every step of any GC run or backup, but a commit or a failed manifest delete that is passed over, keeps: no blob that a manifest names is missing or threatened by a run |
| GcThreat.SafeIsCalm | src/gc.rs:115-289 | the states that quiet GC runs keep are not endangered, whatever the age of their blobs |
| GcThreat.ReliableIsUnexposed | src/gc.rs:111-114 | with a sufficient grace period, what a backup may rely on is not exposed |
| GcExact.StateExact | src/gc.rs:115-289 | the exact condition, for any bound on the time from a LIST of `gc-all` to its plan: in every state with any `gc-all`, `rm-snapshot`, `gc-live` and backups under way, a blob can be lost without a further commit or passed-over failure if and only if a blob that a manifest names is missing or threatened: by a run's candidates, its cutoff or the latest cutoff it may still get, its exclusive blobs, or those it will find exclusive |
| GcExact.CommitExact | src/gc.rs:525-579 | a commit under a name that no run has yet to read can be followed by a loss if and only if it names a blob that is missing or threatened at that moment |
| GcExact.PassedOverEndangers | src/gc.rs:273-284 | a failed delete that `gc-live` passes over although it is to delete a blob of the manifest endangers the bucket in every state |
| GcExact.DangerExact | src/gc.rs:115-289 | over whole runs of any GC commands and backups, commits included: at no moment a loss can follow without a further commit or passed-over failure if and only if none of these endangers the bucket |
| GcExact.TimedIsSafe | src/gc.rs:111-114 | a step that is timed for the grace period endangers nothing, so its runs are a case of the exact condition |
| GcRaces.OverwriteRace | src/gc.rs:525-625 | a recent upload alone is not enough: every step before the commit is timed and the upload recent, but it came while `gc-all` was about to delete the hash; the commit names an exposed blob, and the blob is lost |
| GcRaces.HeadSkipRace | src/snapshots.rs:411-457 | an old orphan found by HEAD is lost although every step before the commit is timed; the commit names an exposed blob |
| GcRaces.RemovalRace | src/gc.rs:147-197 | a blob just uploaded, named by a manifest and taken over by a backup from it, is deleted with that manifest before the backup commits; the commit names an exposed blob |
| GcLive.ChoosePrune | src/gc.rs:215-229 | whatever order the manifests arrive in: the names to prune are those of exactly the live snapshots that retention does not keep in the listing sorted by age, and all of them start with the bytes of `live_` |
| GcLive.AutomaticIsLive | src/gc.rs:215-219 | for every shard, replica, timestamp and uuid the automatic name is a live one |
| GcLive.LiveExactly | src/gc.rs:215-219 | a name is live if and only if its first five bytes are 6C 69 76 65 5F, `live_` |
| GcLive.LiveOfExactly | src/gc.rs:215-219 | of the manifests read, exactly those whose names start with these bytes are considered, none left out |
| GcOps.Bucket.ReadAll | src/manifest.rs:150-160 | all listed manifests are read, each with the parts it had at that moment; it stops exactly when one cannot be read or has vanished |
| GcOps.Bucket.EraseAll | src/gc.rs:442-459 | the delete of every blob of a batch is tried, each as often as its reply is lost, and nothing else is deleted |
| GcOps.Bucket.ScanAndDelete | src/gc.rs:525-638 | for listings of 256 shards that overlap, fail and interleave with batches: the shards not listed are exactly those whose LIST was issued and failed; on success, every blob that was an orphan all the time its shard was listed has been tried, and so has every candidate; it ends with an error exactly when the lock is seen lost; a dry run issues no delete and reports exactly the candidates |
| GcOps.Bucket.GcAllBlobs | src/gc.rs:115-144 | runs as steps of the state machine; it fails only with a cause; on success what it spares is exactly what the manifests present at one moment name, each read after that, and what is younger than the grace period at the plan; every orphan since the plan, in every shard whose LIST did not fail, has been tried, or is reported by a dry run |
| GcOps.EveryOrphanTried | src/gc.rs:525-638 | without a failed LIST: every blob of a listed shard that was an orphan from the plan to the end has been tried or reported |
| GcOps.Bucket.GcSnapshot | src/gc.rs:147-197 | on success the manifest has been read, and so have all others present at one later moment; exactly the blobs it names and none of those does are to be deleted; the manifest's delete is confirmed and every such blob was tried; nothing else is ever deleted, a dry run deletes nothing, and a failure has a cause: a failed request, a vanished manifest, an unconfirmed delete or the loss of the lock |
| GcOps.Bucket.PruneOldLive | src/gc.rs:200-289 | what it prunes is exactly what retention does not keep of the live manifests among all those present at one moment; on success the delete of each of them and of each blob only they named was tried; every manifest delete it issues is of a name that starts with the bytes of `live_`, and nothing else is deleted; a dry run, or nothing to prune, deletes nothing; a failure has a cause |
| GcOps.ExclusiveExactly | src/gc.rs:249-260 | the blobs pruning deletes are exactly those that some pruned manifest names and no other one read |
| GcOps.DeletesDelete | src/gc.rs:442-459 | a delete that takes effect leaves no manifest, or no blob, of that name |
| GcOps.OthersStay | src/gc.rs:200-289 | a manifest that a command may not delete stays through all of its steps, unless another process deletes it |
| GcOps.CommandsAreSafe | src/gc.rs:115-289 | the safety of all runs applies to the commands with their surroundings |
| GcLock.CertifiedStep | src/gc/lock.rs:50-149 | every step keeps: an instance with a term owned the object throughout it |
| GcLock.CertifiedOwnership | src/gc/lock.rs:50-149 | in every run, racing ones included, terms from acquire to last successful refresh are owned throughout, so those of two instances are disjoint |
| GcLock.ExclusiveStep | src/gc/lock.rs:61-149 | guarded steps keep at most one live holder |
| GcLock.MutualExclusion | src/gc/lock.rs:61-149 | with a shared clock, timely refreshes and no put inside another's break or release, at most one live instance holds the lock, and only it starts delete batches |
| GcLockExact.BreaksExactly | src/gc/lock.rs:50-149 | a step leaves every live instance in possession of the object if and only if it is not an effective delete while another one is live |
| GcLockExact.DoublesExactly | src/gc/lock.rs:87-103 | a step can be followed by two live instances without a further such delete if and only if it is one |
| GcLockExact.ExclusionExact | src/gc/lock.rs:50-149 | the exact condition over all runs: at no moment two instances can come to be live without a further such delete if and only if no step is one; the live instance then owns the object |
| GcLockExact.GuardedNeverBreaks | src/gc/lock.rs:61-149 | the guarded runs of MutualExclusion are a case of it |
| GcLock.TwoHolders | src/gc/lock.rs:87-91 | without the guard two instances hold the lock and both may delete |
| GcLockExact.RaceBreaks | src/gc/lock.rs:87-91 | the race breaks the lock with its second delete |
| GcSerial.BothRun | src/gc.rs:50-97 | runs of GC commands under the lock are runs of the lock and runs of the bucket, so what is proved of either holds |
| GcSerial.OneAtATime | src/gc.rs:50-97 | as long as no step breaks the lock, GC commands work one at a time: between two store calls of one, no other makes any |
| GcLockOps.Store.TryPutNow | src/gc/lock.rs:50-57 | it makes one conditional create; an etag comes back exactly when it was confirmed, and then the lock object is the instance's own with the present time; None comes back exactly when it was refused |
| GcLockOps.Store.BreakStale | src/gc/lock.rs:87-91 | it makes a delete and a conditional create, in this order, other instances in between; the result is that of the create |
| GcLockOps.Store.Acquire | src/gc/lock.rs:61-85 | its calls are a create, after a refusal a read, then another create when nothing was read, or a delete and another create when the object was stale; the result is that of the last create, or None when the object read is in force |
| GcLockOps.Store.AcquireWithRetry | src/gc/lock.rs:153-177 | unless it gets the lock it makes all its attempts, and never more; the result is that of the last one |
| GcLockOps.StaleExactly | src/gc/lock.rs:43-45 | an object that was read is broken if and only if it is corrupt or its time is more than 60 seconds ago |
| GcLockOps.Store.RefreshNow | src/gc/lock.rs:107-119 | it makes one conditional replace; success certifies ownership since the previous put and leaves the object with the present time; None means refused and lost; an error keeps the old term |
| GcLockOps.Store.Heartbeat | src/gc/lock.rs:124-149 | it makes nothing but refreshes, one for each beat, and ends early exactly after the first that is refused, which it reports; the lock was owned from the first to the latest success |
| GcLockOps.Store.Release | src/gc/lock.rs:94-103 | it reads the object and ends there exactly when it has seen that it is another's; else it issues one delete, and when that takes effect there is no object |
| Retention.WinnerBest | src/gc.rs:331-336 | the winner of a day is newest, and first listed among equals |
| Retention.KeepsWinner | src/gc.rs:331-336 | in the daily window exactly the winner of its day is kept |
| Retention.OnePerDay | src/gc.rs:311-339 | each day with snapshots in the window keeps exactly one of them, a newest one |
| Retention.AgeRules | src/gc.rs:301-329 | everything recent is kept, everything older than both cutoffs is pruned |
| Retention.DayExactly | src/gc.rs:316-324 | a day lasts 86400 seconds from midnight; a time that has no date counts as the present, or as 1970 |
| Retention.KeptExactly | src/gc.rs:292-340 | exactly what is kept, in numbers: all of the last 60 times `all` seconds, and before that, in the last 60 times `daily` seconds, what no other snapshot of its day beats |
| Retention.ComputePruneSet | src/gc.rs:292-340 | grouping, sorting and skipping yield exactly the names of the snapshots not kept, each as often as it occurs |
| Retention.PrunedExactly | src/gc.rs:292-340 | for distinct names the computed names are those of exactly the snapshots not kept |
| Retention.PruneLeavesKept | src/gc.rs:292-340 | pruned and kept snapshots partition a listing of distinct names |
| Retention.RunIsOutcome | src/gc.rs:292-340 | in whatever order manifests arrive, the result is an outcome retention allows |
| Retention.OutcomeUnique | src/gc.rs:292-340 | unless two snapshots are both newest of one day in the window, there is only one |
| Retention.OrderIrrelevantExactly | src/gc.rs:292-340 | what is left is the same for every order of arrival if and only if there is no such tie |
| Retention.PruneTwice | src/gc.rs:292-340 | pruning now and again later, with arrivals in between, allows nothing that pruning once, later, does not |
| Retention.ScheduleIndependence | src/gc.rs:292-340 | any sequence of runs with fixed retention leaves an outcome of its last run alone |
| Retention.ScheduleEqualsLastRun | src/gc.rs:292-340 | for every schedule and every order of arrival in each run: a single last run leaves exactly what the schedule left, in every order, if and only if its snapshots have no such tie |
| Retention.SurvivingIsKept | src/gc.rs:292-340 | the snapshots a run leaves, in order, are those it keeps |
| Retention.PruneTwiceInOrder | src/gc.rs:292-340 | pruning now and again later, with any arrivals in between, leaves what pruning once, later, leaves, ties included, when listings agree in their order |
| Retention.PruneTwiceAppended | src/gc.rs:292-340 | the same for snapshots that arrive behind the others |
| Retention.RunsEqualLastRun | src/gc.rs:292-340 | any sequence of runs leaves exactly what its last run alone would leave, ties included, when snapshots are listed in the order they arrived |
| Retention.TieFollowsListing | src/gc.rs:331-336 | of two equally new snapshots of a day the one listed first stays |

## Left out

- Numbers are unbounded: offsets and totals past 2^64, minutes times 60 past 63 bits and part numbers past 31 bits are not modelled, because no archive or configuration reaches them.
- PartUpload.UploadPart: the pipe is inside the process and delivers every emitted byte before it ends; the contract also allows fewer, and the lemmas that need all of them say so.
- Reading a file, writing to the pipe and reading an archive can fail only by ending early; reads of the pipe by the upload may fail at any time. Other I/O errors stop the code in the same places.
- Dest.Directory.CreateDirAll: a failure leaves the tree as it was, where the code may have made some of the directories.
- File names that are not UTF-8: the lossy conversion is taken to have happened already, so two such names may collide in the code.
- Listing order and pages: a manifest LIST is one step; a blob LIST is one step per entry, in any order.
- zstd, JSON and base64 encoders are taken to be exact inverses.
- Names and hashes are byte strings; keys outside the blob prefix are never listed.
- CRC-32 is modelled in full and shown to be the remainder its definition asks for; nothing is claimed of its strength against collisions, so data damaged into others with the same checksum are accepted.
- Clock skew between machines: the lock's mutual exclusion and the grace period are stated for one shared clock.
- GcOps.Bucket.PruneOldLive: the timestamps are those of the manifests it has read, given as a function of the name; that a manifest's timestamp is its commit time is not modelled.
- GcSerial.OneAtATime: a request under way when the lock is lost is taken to have arrived before; the code does not wait for it.
- GcExact.StateExact: which snapshots `gc-live` prunes is open until it plans, so what it threatens is meant for any choice among those it reads; the choice itself is `GcLive.ChoosePrune`.
- Snapshot.CreateSnapshot: other processes do not act during the run; what they may do to its blobs is the subject of `GcGrace`.
- Restorable.HistoryExactly: snapshot runs and collections follow one another; uploads and deletes that interleave appear in `GcGrace` and `GcExact`, for the existence of blobs alone. Which files a hash stands for is given as a map: that ClickHouse's hash identifies a part's files is not part of this model.
- ZipIndex.IndexAgreement: one direction only; an archive with a marker-valued field may or may not mislead a reader from the end.
- Multipart.Target.Complete: the store joins the parts listed in ascending order and refuses other lists; its size and count limits appear as `ChunkSize.PartSizes` and `ChunkSize.PartCountBound`.
- Bounded retries with jitter (src/retry.rs) are folded into the outcomes of a store call: done, not done, or done with the reply lost.
- Batching of bulk deletes by shard and its counters (src/storage.rs:709-948), progress output and the terminal interface.
- Staging with hard links, symbolic links and clean-up of staging directories: a staged part is a fixed list of files.
- The ClickHouse client, command line, `restore_snapshot`'s filtering and ATTACH statements.

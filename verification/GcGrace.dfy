/**
 * The grace period of `gc-all` against backups under way: what it needs to be safe, and
 * what goes wrong without it.
 */
module GcGrace {
  import opened Wrappers
  import opened Bytes
  import opened GcStore
  import opened GcSafety
  import Keys

  /**
   * `commit`: from a blob's LastModified to the commit of its manifest; `plan`: from a
   * GC's manifest LIST to its cutoff; `grace`: the grace period.
   */
  datatype Bounds = Bounds(commit: nat, plan: nat, grace: nat)

  predicate Enough(b: Bounds) { b.commit + b.plan < b.grace }

  predicate HeldBy(ms: map<Name, Manifest>, hash: Hash) {
    exists n :: n in ms && hash in ms[n]
  }

  /**
   * A blob a backup may commit: a present manifest holds it; or the backup uploaded it
   * recently, while no GC run was about to delete it; or it is there, however the backup
   * found it, is young, and no GC run is about to delete it.
   */
  predicate Reliable(b: Bounds, s: State, k: Backup, h: Hash) {
    || HeldBy(s.manifests, h)
    || (h in k.uploaded && h !in k.exposed && s.now - k.uploaded[h] <= b.commit)
    || (Since(s, h, s.now - b.commit) && !Pending(s, h))
  }

  /** No manifest is deleted; a plan comes soon after its LIST; and what is committed is reliable. */
  predicate Timed(b: Bounds, s: State, step: Step) {
    match step
    case StartGc(_, live) => !live
    case ReadTarget(_, _) => false
    case DropManifest(_, _, _) => false
    case Plan(g, _, grace) =>
      grace == b.grace && (g in s.gcs && s.gcs[g].Planning? ==> s.now - s.gcs[g].listedAt <= b.plan)
    case Commit(k, _, parts) => k in s.backups ==> forall h :: h in parts ==> Reliable(b, s, s.backups[k], h)
    case _ => true
  }

  predicate TimedRun(b: Bounds, s: State, steps: seq<Step>)
    requires Run(s, steps).Some?
  {
    forall k :: 0 <= k < |steps| ==> Run(s, steps[..k]).Some? && Timed(b, Run(s, steps[..k]).value, steps[k])
  }

  /** The blob exists and was last modified at `t` or later. */
  predicate Since(s: State, h: Hash, t: int) { h in s.blobs && s.blobs[h] >= t }

  predicate AllSince(s: State, covered: set<Hash>, t: int) {
    forall n, h :: n in s.manifests && h in s.manifests[n] ==> h in covered || Since(s, h, t)
  }

  predicate GcGuarded(b: Bounds, s: State, p: Gc) {
    match p
    case Planning(kind, listedAt, unread, read) =>
      && kind.All? && listedAt <= s.now && unread + read.Keys <= s.manifests.Keys
      && (forall n :: n in read ==> read[n] == s.manifests[n])
      && AllSince(s, Union(Only(s.manifests, unread + read.Keys)), listedAt - b.commit)
    case Scanning(referenced, listedAt, cutoff, pending) =>
      && cutoff < listedAt - b.commit && cutoff + b.commit < s.now
      && AllSince(s, referenced, listedAt - b.commit)
      && listedAt <= s.now
      && forall h :: h in pending ==> h !in referenced && !HeldBy(s.manifests, h)
    case _ => false
  }

  /** The backup may still rely on having uploaded the blob. */
  predicate Fresh(b: Bounds, now: int, k: Backup, h: Hash) {
    h in k.uploaded && h !in k.exposed && now - k.uploaded[h] <= b.commit
  }

  /** Such an upload is still there. */
  predicate BackupGuarded(b: Bounds, s: State, k: Backup) {
    forall h :: h in k.uploaded ==>
      k.uploaded[h] <= s.now && (Fresh(b, s.now, k, h) ==> Since(s, h, k.uploaded[h]))
  }

  /** The GC run is about to delete nothing of the kind. */
  predicate Clear(b: Bounds, now: int, p: Gc, k: Backup) {
    p.Scanning? ==> forall h :: h in p.pending ==> !Fresh(b, now, k, h)
  }

  predicate GraceHolds(b: Bounds, s: State) {
    && Complete(s)
    && (forall h :: h in s.blobs ==> s.blobs[h] <= s.now)
    && (forall g :: g in s.gcs ==> GcGuarded(b, s, s.gcs[g]))
    && (forall k :: k in s.backups ==> BackupGuarded(b, s, s.backups[k]))
    && (forall g, k :: g in s.gcs && k in s.backups ==> Clear(b, s.now, s.gcs[g], s.backups[k]))
  }

  lemma PlanGuarded(b: Bounds, s: State, g: Id, prune: set<Name>)
    requires Enough(b) && GraceHolds(b, s) && g in s.gcs && Timed(b, s, Plan(g, prune, b.grace))
    requires ApplyPlan(s, g, prune, b.grace).Some?
    ensures GcGuarded(b, ApplyPlan(s, g, prune, b.grace).value, ApplyPlan(s, g, prune, b.grace).value.gcs[g])
  {
    var p := s.gcs[g];
    assert GcGuarded(b, s, p);
    assert Only(s.manifests, p.unread + p.read.Keys) == p.read;
    hide Union;
  }

  lemma ReadGuarded(b: Bounds, s: State, g: Id, name: Name)
    requires GraceHolds(b, s) && g in s.gcs && ApplyRead(s, g, name).Some?
    ensures var t := ApplyRead(s, g, name).value; g in t.gcs ==> GcGuarded(b, t, t.gcs[g])
  {
    var p := s.gcs[g];
    assert GcGuarded(b, s, p);
    if name in s.manifests {
      var read := p.read[name := s.manifests[name]];
      assert p.unread - {name} + read.Keys == p.unread + p.read.Keys;
    }
    hide Union;
    hide Only;
  }

  lemma StartGuarded(b: Bounds, s: State)
    requires Complete(s)
    ensures GcGuarded(b, s, Planning(All, s.now, s.manifests.Keys, map[]))
  {
    var none: map<Name, Manifest> := map[];
    assert Only(s.manifests, s.manifests.Keys + none.Keys) == s.manifests;
    forall n | n in s.manifests
      ensures s.manifests[n] <= Union(s.manifests)
    {
      InUnion(s.manifests, n);
    }
    hide Union;
  }

  /** A new candidate is old: no manifest names it, and no backup relies on having uploaded it. */
  lemma ListGuarded(b: Bounds, s: State, g: Id, hash: Hash)
    requires GraceHolds(b, s) && g in s.gcs && ApplyListBlob(s, g, hash).Some?
    ensures var t := ApplyListBlob(s, g, hash).value; GcGuarded(b, t, t.gcs[g])
    ensures forall k :: k in s.backups ==> !Fresh(b, s.now, s.backups[k], hash)
  {
    hide Keys.Selected;
    SelectedIsSpared(hash, s.gcs[g].referenced);
    assert GcGuarded(b, s, s.gcs[g]);
    forall k | k in s.backups
      ensures !Fresh(b, s.now, s.backups[k], hash)
    {
      assert BackupGuarded(b, s, s.backups[k]);
    }
  }

  lemma EraseGc(b: Bounds, s: State, t: State, hash: Hash, p: Gc)
    requires GcGuarded(b, s, p) && !HeldBy(s.manifests, hash)
    requires t.now == s.now && t.manifests == s.manifests && t.blobs in {s.blobs, s.blobs - {hash}}
    ensures GcGuarded(b, t, p)
    ensures p.Scanning? ==> GcGuarded(b, t, p.(pending := p.pending - {hash}))
  {
    hide Union;
    hide Only;
    assert forall n :: n in s.manifests ==> hash !in s.manifests[n];
    forall h, q | h != hash && Since(s, h, q)
      ensures Since(t, h, q)
    {
    }
  }

  lemma EraseBackup(b: Bounds, s: State, t: State, hash: Hash, k: Backup)
    requires BackupGuarded(b, s, k) && !Fresh(b, s.now, k, hash)
    requires t.now == s.now && t.blobs in {s.blobs, s.blobs - {hash}}
    ensures BackupGuarded(b, t, k)
  {
  }

  lemma EraseGuarded(b: Bounds, s: State, g: Id, hash: Hash, effect: bool, again: bool)
    requires GraceHolds(b, s) && g in s.gcs && ApplyErase(s, g, hash, effect, again).Some?
    ensures GraceHolds(b, ApplyErase(s, g, hash, effect, again).value)
  {
    var t := ApplyErase(s, g, hash, effect, again).value;
    assert s.gcs[g].Scanning? && !HeldBy(s.manifests, hash) by {
      assert GcGuarded(b, s, s.gcs[g]);
    }
    assert forall n :: n in s.manifests ==> hash !in s.manifests[n];
    assert Complete(t);
    forall k | k in s.backups
      ensures !Fresh(b, s.now, s.backups[k], hash)
    {
      assert Clear(b, s.now, s.gcs[g], s.backups[k]);
    }
    hide GcGuarded;
    hide BackupGuarded;
    hide HeldBy;
    hide Complete;
    hide Fresh;
    forall f | f in t.gcs
      ensures GcGuarded(b, t, t.gcs[f])
    {
      EraseGc(b, s, t, hash, s.gcs[f]);
    }
    forall k | k in t.backups
      ensures BackupGuarded(b, t, t.backups[k])
    {
      EraseBackup(b, s, t, hash, s.backups[k]);
    }
    forall f, k | f in t.gcs && k in t.backups
      ensures Clear(b, t.now, t.gcs[f], t.backups[k])
    {
      assert Clear(b, s.now, s.gcs[f], s.backups[k]);
    }
  }

  lemma UploadGuarded(b: Bounds, s: State, k: Id, hash: Hash)
    requires GraceHolds(b, s) && ApplyBackup(s, Upload(k, hash)).Some?
    ensures GraceHolds(b, ApplyBackup(s, Upload(k, hash)).value)
  {
    var t := ApplyBackup(s, Upload(k, hash)).value;
    assert Complete(t);
    hide Complete;
    hide HeldBy;
    forall h, q | Since(s, h, q)
      ensures Since(t, h, q)
    {
    }
    forall g | g in t.gcs
      ensures GcGuarded(b, t, t.gcs[g])
    {
      UploadGc(b, s, t, s.gcs[g]);
    }
    forall j | j in t.backups
      ensures BackupGuarded(b, t, t.backups[j])
    {
      assert BackupGuarded(b, s, s.backups[j]);
    }
    hide GcGuarded;
    hide BackupGuarded;
    forall g, j | g in t.gcs && j in t.backups
      ensures Clear(b, t.now, t.gcs[g], t.backups[j])
    {
      assert Clear(b, s.now, s.gcs[g], s.backups[j]);
    }
  }

  lemma UploadGc(b: Bounds, s: State, t: State, p: Gc)
    requires GcGuarded(b, s, p) && t.now == s.now && t.manifests == s.manifests
    requires forall h, q :: Since(s, h, q) ==> Since(t, h, q)
    ensures GcGuarded(b, t, p)
  {
    hide Since;
    hide Union;
    hide Only;
  }

  lemma CommitGc(b: Bounds, s: State, t: State, name: Name, parts: Manifest, p: Gc)
    requires GcGuarded(b, s, p) && name !in s.manifests
    requires t.now == s.now && t.blobs == s.blobs && t.manifests == s.manifests[name := parts]
    requires forall h :: h in parts ==>
               HeldBy(s.manifests, h) || (Since(s, h, s.now - b.commit) && (p.Scanning? ==> h !in p.pending))
    ensures GcGuarded(b, t, p)
  {
    assert forall h, q :: Since(s, h, q) <==> Since(t, h, q);
    if p.Planning? {
      var listed := p.unread + p.read.Keys;
      assert Only(t.manifests, listed) == Only(s.manifests, listed);
    }
    hide Union;
    hide Only;
  }

  /** What is reliable is there and is not about to be deleted. */
  lemma ReliableIsThere(b: Bounds, s: State, k: Id, h: Hash, g: Id)
    requires GraceHolds(b, s) && k in s.backups && Reliable(b, s, s.backups[k], h)
    ensures h in s.blobs && (HeldBy(s.manifests, h) || Since(s, h, s.now - b.commit))
    ensures g in s.gcs && s.gcs[g].Scanning? && !HeldBy(s.manifests, h) ==> h !in s.gcs[g].pending
  {
    assert BackupGuarded(b, s, s.backups[k]);
    if g in s.gcs {
      assert Clear(b, s.now, s.gcs[g], s.backups[k]);
    }
    hide GcGuarded;
    hide BackupGuarded;
  }

  lemma CommitGuarded(b: Bounds, s: State, k: Id, name: Name, parts: Manifest)
    requires GraceHolds(b, s) && Timed(b, s, Commit(k, name, parts))
    requires ApplyBackup(s, Commit(k, name, parts)).Some?
    ensures GraceHolds(b, ApplyBackup(s, Commit(k, name, parts)).value)
  {
    var t := ApplyBackup(s, Commit(k, name, parts)).value;
    hide Reliable;
    hide GcGuarded;
    hide HeldBy;
    forall h | h in parts
      ensures h in s.blobs
    {
      ReliableIsThere(b, s, k, h, 0);
    }
    assert Complete(t);
    hide Complete;
    forall g | g in t.gcs
      ensures GcGuarded(b, t, t.gcs[g])
    {
      forall h | h in parts
        ensures HeldBy(s.manifests, h)
                || (Since(s, h, s.now - b.commit) && (s.gcs[g].Scanning? ==> h !in s.gcs[g].pending))
      {
        ReliableIsThere(b, s, k, h, g);
      }
      CommitGc(b, s, t, name, parts, s.gcs[g]);
    }
    hide Since;
    forall j | j in t.backups
      ensures BackupGuarded(b, t, t.backups[j])
    {
      BackupStays(b, s, t, s.backups[j]);
    }
    hide BackupGuarded;
    hide Clear;
  }

  lemma BackupStays(b: Bounds, s: State, t: State, k: Backup)
    requires BackupGuarded(b, s, k) && t.now == s.now && t.blobs == s.blobs
    ensures BackupGuarded(b, t, k)
  {
  }

  lemma TickGuarded(b: Bounds, s: State)
    requires GraceHolds(b, s)
    ensures GraceHolds(b, s.(now := s.now + 1))
  {
    hide Union;
    hide Only;
    var t := s.(now := s.now + 1);
    assert forall h, q :: Since(s, h, q) <==> Since(t, h, q);
    forall g | g in t.gcs
      ensures GcGuarded(b, t, t.gcs[g])
    {
      assert GcGuarded(b, s, s.gcs[g]);
    }
    forall k | k in t.backups
      ensures BackupGuarded(b, t, t.backups[k])
    {
      assert BackupGuarded(b, s, s.backups[k]);
    }
    forall g, k | g in t.gcs && k in t.backups
      ensures Clear(b, t.now, t.gcs[g], t.backups[k])
    {
      assert Clear(b, s.now, s.gcs[g], s.backups[k]);
    }
  }

  /** Steps that only move one process: the others' guards look at the bucket alone. */
  lemma SameBucket(b: Bounds, s: State, t: State)
    requires GraceHolds(b, s)
    requires t.now == s.now && t.blobs == s.blobs && t.manifests == s.manifests
    requires forall g :: g in t.gcs ==> GcGuarded(b, t, t.gcs[g]) || (g in s.gcs && t.gcs[g] == s.gcs[g])
    requires forall k :: k in t.backups ==> t.backups[k].uploaded == map[] || SameUploads(s, k, t.backups[k])
    requires forall g, k :: g in t.gcs && k in s.backups ==> Clear(b, s.now, t.gcs[g], s.backups[k])
    ensures GraceHolds(b, t)
  {
    assert Complete(t);
    hide Complete;
    forall g | g in t.gcs
      ensures GcGuarded(b, t, t.gcs[g])
    {
      if !GcGuarded(b, t, t.gcs[g]) {
        GcStays(b, s, t, t.gcs[g]);
      }
    }
    hide GcGuarded;
    forall k | k in t.backups
      ensures BackupGuarded(b, t, t.backups[k])
    {
      if SameUploads(s, k, t.backups[k]) {
        assert BackupGuarded(b, s, s.backups[k]);
      }
    }
    hide BackupGuarded;
    forall g, k | g in t.gcs && k in t.backups
      ensures Clear(b, t.now, t.gcs[g], t.backups[k])
    {
      if SameUploads(s, k, t.backups[k]) {
        assert Clear(b, s.now, t.gcs[g], s.backups[k]);
      }
    }
  }

  predicate SameUploads(s: State, k: Id, backup: Backup) {
    k in s.backups && backup.uploaded == s.backups[k].uploaded && backup.exposed == s.backups[k].exposed
  }

  lemma GcStays(b: Bounds, s: State, t: State, p: Gc)
    requires GcGuarded(b, s, p) && t.now == s.now && t.blobs == s.blobs && t.manifests == s.manifests
    ensures GcGuarded(b, t, p)
  {
    assert forall h, q :: Since(s, h, q) <==> Since(t, h, q);
    hide Union;
    hide Only;
  }

  lemma GraceStep(b: Bounds, s: State, step: Step)
    requires Enough(b) && GraceHolds(b, s) && Apply(s, step).Some? && Timed(b, s, step)
    ensures GraceHolds(b, Apply(s, step).value)
  {
    hide GraceHolds;
    hide Timed;
    hide ApplyGc;
    hide ApplyBackup;
    match step
    case Tick => TickGuarded(b, s);
    case StartBackup(_) => GraceBackupStep(b, s, step);
    case KnowManifest(_, _) => GraceBackupStep(b, s, step);
    case HeadSkip(_, _) => GraceBackupStep(b, s, step);
    case Upload(_, _) => GraceBackupStep(b, s, step);
    case Commit(_, _, _) => GraceBackupStep(b, s, step);
    case StopBackup(_) => GraceBackupStep(b, s, step);
    case _ => GraceGcStep(b, s, step);
  }

  lemma GraceGcStep(b: Bounds, s: State, step: Step)
    requires Enough(b) && GraceHolds(b, s) && Apply(s, step).Some? && Timed(b, s, step)
    requires step.StartGc? || step.ReadTarget? || step.ListOthers? || step.ReadManifest? || step.Plan?
             || step.ListBlob? || step.DropManifest? || step.StartErasing? || step.EraseBlob? || step.StopGc?
    ensures GraceHolds(b, Apply(s, step).value)
  {
    hide GcGuarded;
    hide BackupGuarded;
    hide Complete;
    hide Union;
    hide Only;
    hide Keys.Selected;
    hide Fresh;
    hide HeldBy;
    var t := Apply(s, step).value;
    match step
    case StartGc(g, live) =>
      StartHasComplete(b, s);
      StartGuarded(b, s);
      GcMoves(b, s, t, g);
    case ReadManifest(g, name) =>
      ReadGuarded(b, s, g, name);
      GcMoves(b, s, t, g);
    case Plan(g, prune, grace) =>
      PlanGuarded(b, s, g, prune);
      GcMoves(b, s, t, g);
    case ListBlob(g, hash) =>
      ListGuarded(b, s, g, hash);
      GcMoves(b, s, t, g);
    case EraseBlob(g, hash, effect, again) => EraseGuarded(b, s, g, hash, effect, again);
    case StopGc(g) => SameBucket(b, s, t);
    case StartErasing(g) => OnlyAll(b, s, g);
    case ListOthers(g) => OnlyAll(b, s, g);
  }

  lemma GraceBackupStep(b: Bounds, s: State, step: Step)
    requires Enough(b) && GraceHolds(b, s) && Apply(s, step).Some? && Timed(b, s, step)
    requires step.StartBackup? || step.KnowManifest? || step.HeadSkip? || step.Upload? || step.Commit?
             || step.StopBackup?
    ensures GraceHolds(b, Apply(s, step).value)
  {
    hide GcGuarded;
    hide BackupGuarded;
    hide Complete;
    hide Union;
    var t := Apply(s, step).value;
    match step
    case StartBackup(k) => SameBucket(b, s, t);
    case KnowManifest(k, name) => SameBucket(b, s, t);
    case HeadSkip(k, hash) => SameBucket(b, s, t);
    case Upload(k, hash) => UploadGuarded(b, s, k, hash);
    case Commit(k, name, parts) => CommitGuarded(b, s, k, name, parts);
    case StopBackup(k) => SameBucket(b, s, t);
  }

  lemma StartHasComplete(b: Bounds, s: State)
    requires GraceHolds(b, s)
    ensures Complete(s)
  {
  }

  lemma OnlyAll(b: Bounds, s: State, g: Id)
    requires GraceHolds(b, s) && g in s.gcs
    ensures !s.gcs[g].Targeted? && !s.gcs[g].Dropping?
  {
    assert GcGuarded(b, s, s.gcs[g]);
  }

  lemma GcMoves(b: Bounds, s: State, t: State, g: Id)
    requires GraceHolds(b, s)
    requires t == s.(gcs := t.gcs) && t.gcs.Keys <= s.gcs.Keys + {g}
    requires forall f :: f in t.gcs && f != g ==> t.gcs[f] == s.gcs[f]
    requires g in t.gcs ==> GcGuarded(b, t, t.gcs[g]) || GcGuarded(b, s, t.gcs[g])
    requires g in t.gcs ==> forall k :: k in s.backups ==> Clear(b, s.now, t.gcs[g], s.backups[k])
    ensures GraceHolds(b, t)
  {
    hide GcGuarded;
    hide Clear;
    hide BackupGuarded;
    hide Complete;
    if g in t.gcs && GcGuarded(b, s, t.gcs[g]) {
      GcStays(b, s, t, t.gcs[g]);
    }
    SameBucket(b, s, t);
  }

  /**
   * With a sufficient grace period, no timed run of backups and `gc-all` runs leaves a
   * committed manifest without one of its blobs.
   */
  lemma {:induction false} GraceKeepsSnapshots(b: Bounds, s: State, steps: seq<Step>)
    requires Enough(b)
    requires Complete(s) && s.gcs == map[] && s.backups == map[]
    requires forall h :: h in s.blobs ==> s.blobs[h] <= s.now
    requires Run(s, steps).Some? && TimedRun(b, s, steps)
    ensures GraceHolds(b, Run(s, steps).value) && Complete(Run(s, steps).value)
  {
    if steps != [] {
      var last := |steps| - 1;
      var before := steps[..last];
      assert forall k :: 0 <= k < last ==> before[..k] == steps[..k];
      GraceKeepsSnapshots(b, s, before);
      assert Timed(b, Run(s, before).value, steps[last]);
      GraceStep(b, Run(s, before).value, steps[last]);
    }
  }
}

/**
 * What GC runs under way threaten: a state is endangered when one of them may yet delete a
 * blob that a manifest names. Which steps keep a bucket out of danger, and which states are.
 */
module GcThreat {
  import opened Wrappers
  import opened Bytes
  import opened GcStore
  import opened GcSafety
  import opened GcGrace
  import Keys

  /** A plan of `gc-all` has the grace period and comes soon after its LIST. */
  predicate Punctual(b: Bounds, s: State, step: Step) {
    step.Plan? && step.g in s.gcs && s.gcs[step.g].Planning? && s.gcs[step.g].kind.All? ==>
      step.grace == b.grace && s.now - s.gcs[step.g].listedAt <= b.plan
  }

  /** What a planning run will have read, if nothing changes. */
  function Will(s: State, p: Gc): map<Name, Manifest>
    requires p.Planning?
  {
    p.read + Only(s.manifests, p.unread)
  }

  /** The blob is there, and a scan that spares `referenced` takes it when it is old enough. */
  predicate Takes(s: State, referenced: set<Hash>, h: Hash) {
    h in s.blobs && Keys.Scanned(h) && Keys.Selected(h, referenced)
  }

  /** What a planning run will make of the blob, once it has read everything. */
  predicate WillThreaten(b: Bounds, s: State, p: Gc, n: Name, h: Hash)
    requires p.Planning?
  {
    match p.kind
    case All =>
      && s.now <= p.listedAt + b.plan
      && Takes(s, Union(Will(s, p)), h) && s.blobs[h] <= p.listedAt + b.plan - b.grace
    case Remove(target, parts) => n != target && h in parts && !HeldBy(Will(s, p), h)
    case Live => HeldBy(Will(s, p), h) && !(n in Will(s, p) && h in Will(s, p)[n])
  }

  /**
   * The run in phase `p` may yet delete the blob although the manifest `n` names it. A run
   * that has a vanished manifest left to read will stop.
   */
  predicate Threatens(b: Bounds, s: State, p: Gc, n: Name, h: Hash) {
    match p
    case Targeted(_, _) => false
    case Planning(_, _, unread, _) => unread <= s.manifests.Keys && WillThreaten(b, s, p, n, h)
    case Scanning(referenced, _, cutoff, pending) =>
      h in pending || (Takes(s, referenced, h) && s.blobs[h] <= cutoff)
    case Dropping(names, exclusive, _) => h in exclusive && n !in names
    case Erasing(pending) => h in pending
  }

  /** The blob is missing, or some run threatens it. */
  predicate Exposed(b: Bounds, s: State, n: Name, h: Hash) {
    h !in s.blobs || exists g :: g in s.gcs && Threatens(b, s, s.gcs[g], n, h)
  }

  /** The manifest names the blob. */
  predicate Names(s: State, n: Name, h: Hash) { n in s.manifests && h in s.manifests[n] }

  ghost predicate Endangered(b: Bounds, s: State) {
    exists n, h :: Names(s, n, h) && Exposed(b, s, n, h)
  }

  predicate NoFuture(s: State) { forall h :: h in s.blobs ==> s.blobs[h] <= s.now }

  lemma CalmIsComplete(b: Bounds, s: State)
    requires !Endangered(b, s)
    ensures Complete(s)
  {
    forall n, h | n in s.manifests && h in s.manifests[n]
      ensures h in s.blobs
    {
      assert Names(s, n, h);
    }
  }

  lemma Unthreatened(b: Bounds, s: State, g: Id, n: Name, h: Hash)
    requires !Endangered(b, s) && Names(s, n, h)
    ensures h in s.blobs && (g in s.gcs ==> !Threatens(b, s, s.gcs[g], n, h))
  {
    assert !Exposed(b, s, n, h);
  }

  // ---- No danger comes up by itself ----

  /** Steps that bring no danger by their nature: all but commits, and failed deletes that are passed over. */
  predicate Innocent(s: State, step: Step) { !step.Commit? && !Passes(s, step) }

  lemma HeldIsSpared(ms: map<Name, Manifest>, h: Hash)
    requires HeldBy(ms, h)
    ensures !Keys.Selected(h, Union(ms))
  {
    if Keys.Selected(h, Union(ms)) {
      SelectedIsSpared(h, Union(ms));
    }
  }

  /** Fewer manifests, time and younger blobs threaten no more than before. */
  predicate Milder(s: State, t: State) {
    && t.now >= s.now && t.manifests.Keys <= s.manifests.Keys
    && (forall n :: n in t.manifests ==> t.manifests[n] == s.manifests[n])
  }

  lemma ThreatStays(b: Bounds, s: State, t: State, p: Gc, n: Name, h: Hash)
    requires Milder(s, t) && h in s.blobs && h in t.blobs && t.blobs[h] >= s.blobs[h]
    ensures Threatens(b, t, p, n, h) ==> Threatens(b, s, p, n, h)
  {
    if p.Planning? && p.unread <= t.manifests.Keys {
      assert Only(t.manifests, p.unread) == Only(s.manifests, p.unread);
    }
    hide Union;
    hide Only;
    hide Keys.Selected;
  }

  /** Named blobs are all as young or younger; runs other than `g` are where they were. */
  ghost predicate Similar(s: State, t: State, g: Id) {
    && Milder(s, t)
    && (forall n, h :: Names(t, n, h) && h in s.blobs ==> h in t.blobs && t.blobs[h] >= s.blobs[h])
    && (forall f :: f in t.gcs && f != g ==> f in s.gcs && t.gcs[f] == s.gcs[f])
  }

  lemma SimilarCalm(b: Bounds, s: State, t: State, g: Id)
    requires !Endangered(b, s) && Similar(s, t, g)
    requires g in t.gcs ==> forall n, h :: Names(t, n, h) ==> !Threatens(b, t, t.gcs[g], n, h)
    ensures !Endangered(b, t)
  {
    hide Threatens;
    forall n, h | Names(t, n, h)
      ensures !Exposed(b, t, n, h)
    {
      assert Names(s, n, h);
      assert !Exposed(b, s, n, h);
      forall f | f in t.gcs
        ensures !Threatens(b, t, t.gcs[f], n, h)
      {
        if f != g {
          ThreatStays(b, s, t, s.gcs[f], n, h);
        }
      }
    }
  }

  /** A run that has just listed all manifests but perhaps its target. */
  lemma ListingCalm(b: Bounds, s: State, kind: Kind, unread: set<Name>, n: Name, h: Hash)
    requires Names(s, n, h) && (n in unread || (kind.Remove? && n == kind.target))
    ensures !Threatens(b, s, Planning(kind, s.now, unread, map[]), n, h)
  {
    var p := Planning(kind, s.now, unread, map[]);
    if n in unread {
      assert n in Will(s, p) && h in Will(s, p)[n];
      HeldIsSpared(Will(s, p), h);
    }
  }

  lemma StartCalm(b: Bounds, s: State, g: Id, kind: Kind, unread: set<Name>)
    requires !Endangered(b, s) && (forall n :: n in s.manifests ==> n in unread || (kind.Remove? && n == kind.target))
    requires NoFuture(s)
    ensures !Endangered(b, WithGc(s, g, Planning(kind, s.now, unread, map[])))
  {
    var t := WithGc(s, g, Planning(kind, s.now, unread, map[]));
    forall n, h | Names(t, n, h)
      ensures h in s.blobs && !Threatens(b, t, t.gcs[g], n, h)
    {
      Unthreatened(b, s, g, n, h);
      ListingCalm(b, t, kind, unread, n, h);
    }
    hide Threatens;
    SimilarCalm(b, s, t, g);
  }

  lemma ReadThreat(b: Bounds, s: State, g: Id, name: Name, n: Name, h: Hash)
    requires g in s.gcs && ApplyRead(s, g, name).Some? && name in s.manifests
    ensures var t := ApplyRead(s, g, name).value;
            g in t.gcs && (Threatens(b, t, t.gcs[g], n, h) <==> Threatens(b, s, s.gcs[g], n, h))
  {
    var t, p := ApplyRead(s, g, name).value, s.gcs[g];
    assert Will(t, t.gcs[g]) == Will(s, p);
    hide Will;
    hide Union;
    hide Keys.Selected;
  }

  lemma ReadCalm(b: Bounds, s: State, g: Id, name: Name)
    requires !Endangered(b, s) && g in s.gcs && ApplyRead(s, g, name).Some?
    ensures !Endangered(b, ApplyRead(s, g, name).value)
  {
    var t := ApplyRead(s, g, name).value;
    hide Threatens;
    forall n, h | Names(t, n, h)
      ensures h in s.blobs && (g in t.gcs ==> !Threatens(b, t, t.gcs[g], n, h))
    {
      Unthreatened(b, s, g, n, h);
      if name in s.manifests {
        ReadThreat(b, s, g, name, n, h);
      }
    }
    SimilarCalm(b, s, t, g);
  }

  /** A punctual plan threatens nothing it did not threaten before. */
  lemma PlanThreat(b: Bounds, s: State, g: Id, prune: set<Name>, grace: int, n: Name, h: Hash)
    requires g in s.gcs && ApplyPlan(s, g, prune, grace).Some? && Punctual(b, s, Plan(g, prune, grace))
    requires Threatens(b, s, ApplyPlan(s, g, prune, grace).value.gcs[g], n, h)
    ensures Threatens(b, s, s.gcs[g], n, h)
  {
    var p := s.gcs[g];
    assert Will(s, p) == p.read;
    match p.kind
    case All =>
      hide Union;
      hide Keys.Selected;
    case Remove(_, _) => UnionHolds(p.read, h);
    case Live =>
      UnionHolds(Only(p.read, prune), h);
      UnionHolds(p.read - prune, h);
      var m :| m in Only(p.read, prune) && h in Only(p.read, prune)[m];
      assert HeldBy(p.read, h);
      KeptHolds(p.read, prune, n, h);
  }

  lemma KeptHolds(read: map<Name, Manifest>, prune: set<Name>, n: Name, h: Hash)
    ensures n in read && h in read[n] && n !in prune ==> HeldBy(read - prune, h)
  {
    if n in read && h in read[n] && n !in prune {
      assert n in read - prune && h in (read - prune)[n];
    }
  }

  lemma UnionHolds(ms: map<Name, Manifest>, h: Hash)
    ensures h in Union(ms) <==> HeldBy(ms, h)
  {
  }

  lemma PlanCalm(b: Bounds, s: State, g: Id, prune: set<Name>, grace: int)
    requires !Endangered(b, s) && g in s.gcs && ApplyPlan(s, g, prune, grace).Some?
    requires Punctual(b, s, Plan(g, prune, grace))
    ensures !Endangered(b, ApplyPlan(s, g, prune, grace).value)
  {
    var t := ApplyPlan(s, g, prune, grace).value;
    assert t == WithGc(s, g, t.gcs[g]);
    hide ApplyPlan;
    forall n, h | Names(t, n, h)
      ensures h in s.blobs && !Threatens(b, t, t.gcs[g], n, h)
    {
      Unthreatened(b, s, g, n, h);
      if Threatens(b, t, t.gcs[g], n, h) {
        ThreatStays(b, s, t, t.gcs[g], n, h);
        PlanThreat(b, s, g, prune, grace, n, h);
      }
    }
    hide Threatens;
    SimilarCalm(b, s, t, g);
  }

  lemma ListCalm(b: Bounds, s: State, g: Id, hash: Hash)
    requires !Endangered(b, s) && g in s.gcs && ApplyListBlob(s, g, hash).Some?
    ensures !Endangered(b, ApplyListBlob(s, g, hash).value)
  {
    var t := ApplyListBlob(s, g, hash).value;
    hide Keys.Selected;
    forall n, h | Names(t, n, h)
      ensures h in s.blobs && !Threatens(b, t, t.gcs[g], n, h)
    {
      Unthreatened(b, s, g, n, h);
    }
    SimilarCalm(b, s, t, g);
  }

  lemma EraseCalm(b: Bounds, s: State, g: Id, hash: Hash, effect: bool, again: bool)
    requires !Endangered(b, s) && g in s.gcs && ApplyErase(s, g, hash, effect, again).Some?
    ensures !Endangered(b, ApplyErase(s, g, hash, effect, again).value)
  {
    var t := ApplyErase(s, g, hash, effect, again).value;
    hide Keys.Selected;
    forall n, h | Names(t, n, h)
      ensures h in s.blobs && h != hash && !Threatens(b, t, t.gcs[g], n, h)
    {
      Unthreatened(b, s, g, n, h);
    }
    SimilarCalm(b, s, t, g);
  }

  lemma DropCalm(b: Bounds, s: State, g: Id, name: Name, outcome: Drop)
    requires !Endangered(b, s) && g in s.gcs && ApplyDrop(s, g, name, outcome).Some?
    requires !Passes(s, DropManifest(g, name, outcome))
    ensures !Endangered(b, ApplyDrop(s, g, name, outcome).value)
  {
    var t := ApplyDrop(s, g, name, outcome).value;
    forall n, h | Names(t, n, h)
      ensures h in s.blobs && (g in t.gcs ==> !Threatens(b, t, t.gcs[g], n, h))
    {
      Unthreatened(b, s, g, n, h);
    }
    hide WillThreaten;
    SimilarCalm(b, s, t, g);
  }

  /** A GC run's steps inside its phases, or out of them. */
  lemma GcCalm(b: Bounds, s: State, step: Step)
    requires !Endangered(b, s) && NoFuture(s) && Apply(s, step).Some? && Punctual(b, s, step) && Innocent(s, step)
    requires step.ListOthers? || step.StartErasing? || step.StopGc? || step.ReadManifest? || step.Plan?
             || step.ListBlob? || step.EraseBlob? || step.DropManifest?
    ensures !Endangered(b, Apply(s, step).value)
  {
    hide Endangered;
    hide WillThreaten;
    hide ApplyRead;
    hide ApplyPlan;
    hide ApplyListBlob;
    hide ApplyErase;
    hide ApplyDrop;
    match step
    case ReadManifest(g, name) => ReadCalm(b, s, g, name);
    case Plan(g, prune, grace) => PlanCalm(b, s, g, prune, grace);
    case ListBlob(g, hash) => ListCalm(b, s, g, hash);
    case EraseBlob(g, hash, effect, again) => EraseCalm(b, s, g, hash, effect, again);
    case DropManifest(g, name, outcome) => DropCalm(b, s, g, name, outcome);
    case StopGc(g) => StopCalm(b, s, g);
    case StartErasing(g) => ErasingCalm(b, s, g);
    case ListOthers(g) =>
      var p := s.gcs[g];
      StartCalm(b, s, g, Remove(p.target, p.parts), s.manifests.Keys - {p.target});
  }

  lemma StopCalm(b: Bounds, s: State, g: Id)
    requires !Endangered(b, s) && g in s.gcs
    ensures !Endangered(b, WithoutGc(s, g))
  {
    hide Threatens;
    forall n, h | Names(s, n, h)
      ensures h in s.blobs
    {
      Unthreatened(b, s, g, n, h);
    }
    SimilarCalm(b, s, WithoutGc(s, g), g);
  }

  lemma ErasingCalm(b: Bounds, s: State, g: Id)
    requires !Endangered(b, s) && g in s.gcs && s.gcs[g].Dropping? && s.gcs[g].names == {}
    ensures !Endangered(b, WithGc(s, g, Erasing(s.gcs[g].exclusive)))
  {
    var t := WithGc(s, g, Erasing(s.gcs[g].exclusive));
    forall n, h | Names(t, n, h)
      ensures h in s.blobs && !Threatens(b, t, t.gcs[g], n, h)
    {
      Unthreatened(b, s, g, n, h);
    }
    hide Threatens;
    SimilarCalm(b, s, t, g);
  }

  /** A run that only reads what it is to remove. */
  lemma TargetCalm(b: Bounds, s: State, g: Id, name: Name)
    requires !Endangered(b, s) && name in s.manifests
    ensures !Endangered(b, WithGc(s, g, Targeted(name, s.manifests[name])))
  {
    var t := WithGc(s, g, Targeted(name, s.manifests[name]));
    forall n, h | Names(s, n, h)
      ensures h in s.blobs
    {
      Unthreatened(b, s, g, n, h);
    }
    hide WillThreaten;
    SimilarCalm(b, s, t, g);
  }

  /** The clock, and a backup's steps up to its commit. */
  lemma BackupCalm(b: Bounds, s: State, step: Step)
    requires !Endangered(b, s) && NoFuture(s) && Apply(s, step).Some?
    requires step.Tick? || step.StartBackup? || step.KnowManifest? || step.HeadSkip? || step.Upload? || step.StopBackup?
    ensures !Endangered(b, Apply(s, step).value)
  {
    hide Endangered;
    hide Threatens;
    var t := Apply(s, step).value;
    if g :| g in t.gcs {
      forall n, h | Names(t, n, h)
        ensures h in s.blobs && !Threatens(b, t, t.gcs[g], n, h)
      {
        assert Names(s, n, h);
        Unthreatened(b, s, g, n, h);
        ThreatStays(b, s, t, s.gcs[g], n, h);
      }
      SimilarCalm(b, s, t, g);
    } else {
      forall n, h | Names(t, n, h)
        ensures h in s.blobs
      {
        assert Names(s, n, h);
        Unthreatened(b, s, 0, n, h);
      }
      SimilarCalm(b, s, t, 0);
    }
  }

  lemma FutureStep(s: State, step: Step)
    requires NoFuture(s) && Apply(s, step).Some?
    ensures NoFuture(Apply(s, step).value)
  {
    hide Union;
    hide Only;
    hide Keys.Selected;
  }

  /** Every punctual innocent step, of anyone, leaves a bucket that is not endangered so. */
  lemma CalmStep(b: Bounds, s: State, step: Step)
    requires !Endangered(b, s) && NoFuture(s)
    requires Apply(s, step).Some? && Punctual(b, s, step) && Innocent(s, step)
    ensures !Endangered(b, Apply(s, step).value)
  {
    hide Endangered;
    hide ApplyBackup;
    hide Passes;
    hide NoFuture;
    match step
    case StartGc(g, live) => StartCalm(b, s, g, if live then Live else All, s.manifests.Keys);
    case ReadTarget(g, name) => TargetCalm(b, s, g, name);
    case Tick => BackupCalm(b, s, step);
    case StartBackup(_) => BackupCalm(b, s, step);
    case KnowManifest(_, _) => BackupCalm(b, s, step);
    case HeadSkip(_, _) => BackupCalm(b, s, step);
    case Upload(_, _) => BackupCalm(b, s, step);
    case StopBackup(_) => BackupCalm(b, s, step);
    case _ => GcCalm(b, s, step);
  }

  // ---- What is known to be safe ----

  /** The states `GcSafety` keeps are not endangered, however old their blobs are. */
  lemma SafeIsCalm(b: Bounds, s: State)
    requires Safe(s)
    ensures !Endangered(b, s)
  {
    forall n, h | Names(s, n, h)
      ensures !Exposed(b, s, n, h)
    {
      forall g | g in s.gcs
        ensures !Threatens(b, s, s.gcs[g], n, h)
      {
        SparedIsSafe(b, s, s.gcs[g], n, h);
      }
    }
  }

  lemma SparedIsSafe(b: Bounds, s: State, p: Gc, n: Name, h: Hash)
    requires Names(s, n, h) && Spares(p, n, s.manifests[n])
    ensures !Threatens(b, s, p, n, h)
  {
    match p
    case Planning(kind, _, unread, read) =>
      if unread <= s.manifests.Keys && (n in unread || (n in read && read[n] == s.manifests[n])) {
        assert n in Will(s, p) && h in Will(s, p)[n];
        HeldIsSpared(Will(s, p), h);
      }
    case Scanning(referenced, _, _, _) =>
      if Keys.Selected(h, referenced) {
        SelectedIsSpared(h, referenced);
      }
    case _ =>
  }

  /** What a `gc-all` run guards in a state that the grace period protects is not threatened. */
  lemma GuardedIsSafe(b: Bounds, s: State, p: Gc, n: Name, h: Hash)
    requires Enough(b) && GcGuarded(b, s, p) && h in s.blobs
    requires HeldBy(s.manifests, h) || (Since(s, h, s.now - b.commit) && (p.Scanning? ==> h !in p.pending))
    ensures !Threatens(b, s, p, n, h)
  {
    if p.Planning? {
      assert Will(s, p) == Only(s.manifests, p.unread + p.read.Keys);
    }
    hide Union;
    hide Only;
    hide Will;
    hide Keys.Selected;
    if p.Planning? {
      if Keys.Selected(h, Union(Will(s, p))) {
        SelectedIsSpared(h, Union(Will(s, p)));
      }
    } else if Keys.Selected(h, p.referenced) {
      SelectedIsSpared(h, p.referenced);
    }
  }

  /** With a sufficient grace period, what a backup may rely on is not exposed. */
  lemma ReliableIsUnexposed(b: Bounds, s: State, k: Id, n: Name, h: Hash)
    requires Enough(b) && GraceHolds(b, s) && k in s.backups && Reliable(b, s, s.backups[k], h)
    ensures !Exposed(b, s, n, h)
  {
    hide GcGuarded;
    hide BackupGuarded;
    hide Reliable;
    hide Threatens;
    ReliableIsThere(b, s, k, h, 0);
    forall g | g in s.gcs
      ensures !Threatens(b, s, s.gcs[g], n, h)
    {
      ReliableIsThere(b, s, k, h, g);
      GuardedIsSafe(b, s, s.gcs[g], n, h);
    }
  }

  /** The states that the grace period protects are not endangered. */
  lemma GraceIsCalm(b: Bounds, s: State)
    requires Enough(b) && GraceHolds(b, s)
    ensures !Endangered(b, s) && NoFuture(s)
  {
    hide Threatens;
    hide GcGuarded;
    forall n, h | Names(s, n, h)
      ensures !Exposed(b, s, n, h)
    {
      assert HeldBy(s.manifests, h);
      forall g | g in s.gcs
        ensures !Threatens(b, s, s.gcs[g], n, h)
      {
        GuardedIsSafe(b, s, s.gcs[g], n, h);
      }
    }
  }
}

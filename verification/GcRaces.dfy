/** Three runs that lose a blob of a snapshot committed meanwhile: two by `gc-all`, one by `rm-snapshot`. */
module GcRaces {
  import opened Wrappers
  import opened Bytes
  import opened GcStore
  import opened GcSafety
  import opened GcGrace
  import opened GcThreat
  import opened GcExact
  import Keys

  /** A bucket with one orphan, far older than the grace period. */
  function Orphan(hash: Hash): State { State(100, map[hash := 0], map[], map[], map[]) }

  const BOUNDS := Bounds(5, 0, 10)

  lemma OrphanSelected(hash: Hash)
    requires Keys.FromHex(hash).Some?
    ensures Keys.Selected(hash, {})
  {
    Keys.SelectionExact(hash, {});
  }

  /** `gc-all` lists the orphan, a backup uploads the same hash anew, the delete comes last. */
  function OverwriteSteps(name: Name, hash: Hash): seq<Step> {
    [StartGc(0, false), Plan(0, {}, 10), ListBlob(0, hash), StartBackup(1), Upload(1, hash),
     EraseBlob(0, hash, true, false), Commit(1, name, {hash})]
  }

  /** Up to its LIST of the blob, `gc-all` runs alone; then a backup starts. */
  function Listed(hash: Hash): seq<State> {
    var s0 := Orphan(hash);
    var s1 := WithGc(s0, 0, Planning(All, 100, s0.manifests.Keys, map[]));
    var s2 := WithGc(s1, 0, Scanning(Union(map[]), 100, 90, {}));
    var s3 := WithGc(s2, 0, Scanning(Union(map[]), 100, 90, {} + {hash}));
    var s4 := s3.(backups := s3.backups[1 := Backup({}, map[], {})]);
    [s0, s1, s2, s3, s4]
  }

  /** The delete and the commit. */
  function Lost(s: State, name: Name, hash: Hash): seq<State> {
    var t := WithGc(s.(blobs := s.blobs - {hash}), 0, Scanning(Union(map[]), 100, 90, {} + {hash} - {hash}));
    [t, t.(manifests := t.manifests[name := {hash}], backups := t.backups - {1})]
  }

  function OverwriteStates(name: Name, hash: Hash): seq<State> {
    var s4 := Listed(hash)[4];
    var s5 := s4.(blobs := s4.blobs[hash := 100],
                  backups := s4.backups[1 := Backup({}, map[][hash := 100], {} + {hash})]);
    Listed(hash) + [s5] + Lost(s5, name, hash)
  }

  lemma ListedChain(hash: Hash)
    requires Keys.FromHex(hash).Some? && Keys.Scanned(hash)
    ensures var states := Listed(hash);
            && Apply(states[0], StartGc(0, false)) == Some(states[1])
            && Apply(states[1], Plan(0, {}, 10)) == Some(states[2])
            && Apply(states[2], ListBlob(0, hash)) == Some(states[3])
            && Apply(states[3], StartBackup(1)) == Some(states[4])
  {
    OrphanSelected(hash);
    hide Keys.Selected;
    NoUnion();
    assert Orphan(hash).manifests.Keys == {};
  }

  lemma LostChain(s: State, name: Name, hash: Hash)
    requires 0 in s.gcs && s.gcs[0] == Scanning(Union(map[]), 100, 90, {} + {hash})
    requires 1 in s.backups && hash in s.backups[1].reused + s.backups[1].uploaded.Keys && name !in s.manifests
    ensures Apply(s, EraseBlob(0, hash, true, false)) == Some(Lost(s, name, hash)[0])
    ensures Apply(Lost(s, name, hash)[0], Commit(1, name, {hash})) == Some(Lost(s, name, hash)[1])
    ensures !Complete(Lost(s, name, hash)[1])
  {
    hide Union;
    var last := Lost(s, name, hash)[1];
    assert name in last.manifests && hash in last.manifests[name] && hash !in last.blobs;
  }

  lemma NoUnion()
    ensures Union(map[]) == {}
  {
  }

  /** The upload finds its hash about to be deleted. */
  lemma ExposedUpload(name: Name, hash: Hash)
    ensures var states := OverwriteStates(name, hash); Apply(states[4], Upload(1, hash)) == Some(states[5])
  {
    hide Union;
    hide Lost;
    var s4 := OverwriteStates(name, hash)[4];
    assert 0 in s4.gcs && hash in s4.gcs[0].pending;
  }

  lemma OverwriteChain(name: Name, hash: Hash)
    requires Keys.FromHex(hash).Some? && Keys.Scanned(hash)
    ensures Chain(OverwriteStates(name, hash), OverwriteSteps(name, hash))
    ensures Complete(Orphan(hash)) && !Complete(OverwriteStates(name, hash)[7])
  {
    ListedChain(hash);
    ExposedUpload(name, hash);
    LostChain(OverwriteStates(name, hash)[5], name, hash);
    hide Union;
    hide Apply;
    hide Lost;
  }

  /** The commit comes when the blob is gone, so `CommitExact` says it can lose one. */
  lemma CommitsExposed(s: State, name: Name, hash: Hash)
    ensures NamesExposed(BOUNDS, Lost(s, name, hash)[0], Commit(1, name, {hash}))
  {
    var step := Commit(1, name, {hash});
    assert hash in step.parts && Exposed(BOUNDS, Lost(s, name, hash)[0], name, hash);
  }

  predicate RecentlyUploaded(s: State, hash: Hash) {
    1 in s.backups && hash in s.backups[1].uploaded && s.now - s.backups[1].uploaded[hash] <= BOUNDS.commit
  }

  lemma OverwriteTimed(name: Name, hash: Hash)
    ensures RecentlyUploaded(OverwriteStates(name, hash)[6], hash)
    ensures forall k :: 0 <= k < 6 ==>
              Timed(BOUNDS, OverwriteStates(name, hash)[k], OverwriteSteps(name, hash)[k])
  {
    hide Union;
  }

  /**
   * A recent upload is not enough: `gc-all` may delete it on the strength of the age the
   * overwritten orphan had. Every step before the commit is timed, and at the commit the
   * upload is recent; but it names an exposed blob.
   */
  lemma OverwriteRace(name: Name, hash: Hash)
    requires Keys.FromHex(hash).Some? && Keys.Scanned(hash)
    ensures var s, steps := Orphan(hash), OverwriteSteps(name, hash);
            && Enough(BOUNDS) && Complete(s)
            && Run(s, steps).Some? && !Complete(Run(s, steps).value)
            && (forall k :: 0 <= k < 6 ==>
                  Run(s, steps[..k]).Some? && Timed(BOUNDS, Run(s, steps[..k]).value, steps[k]))
            && Run(s, steps[..6]).Some? && RecentlyUploaded(Run(s, steps[..6]).value, hash)
            && NamesExposed(BOUNDS, Run(s, steps[..6]).value, Commit(1, name, {hash}))
  {
    var steps := OverwriteSteps(name, hash);
    var states := OverwriteStates(name, hash);
    assert steps[..7] == steps && |steps| == 7 && |states| == 8 && states[0] == Orphan(hash);
    OverwriteChain(name, hash);
    OverwriteTimed(name, hash);
    CommitsExposed(states[5], name, hash);
    assert states[6] == Lost(states[5], name, hash)[0];
    assert Enough(BOUNDS);
    hide *;
    forall k | 0 <= k <= 7
      ensures Run(states[0], steps[..k]) == Some(states[k])
    {
      ChainRuns(states, steps, k);
    }
  }

  /** A backup finds the orphan by HEAD and relies on it; `gc-all` deletes it meanwhile. */
  function HeadSteps(name: Name, hash: Hash): seq<Step> {
    [StartGc(0, false), Plan(0, {}, 10), ListBlob(0, hash), StartBackup(1), HeadSkip(1, hash),
     EraseBlob(0, hash, true, false), Commit(1, name, {hash})]
  }

  function HeadStates(name: Name, hash: Hash): seq<State> {
    var s4 := Listed(hash)[4];
    var s5 := s4.(backups := s4.backups[1 := Backup({} + {hash}, map[], {})]);
    Listed(hash) + [s5] + Lost(s5, name, hash)
  }

  lemma HeadChain(name: Name, hash: Hash)
    requires Keys.FromHex(hash).Some? && Keys.Scanned(hash)
    ensures Chain(HeadStates(name, hash), HeadSteps(name, hash))
    ensures Complete(Orphan(hash)) && !Complete(HeadStates(name, hash)[7])
  {
    ListedChain(hash);
    LostChain(HeadStates(name, hash)[5], name, hash);
    hide Union;
    hide ApplyGc;
    hide Lost;
  }

  lemma HeadTimed(name: Name, hash: Hash)
    ensures forall k :: 0 <= k < 6 ==>
              Timed(BOUNDS, HeadStates(name, hash)[k], HeadSteps(name, hash)[k])
  {
    hide Union;
  }

  /**
   * The grace period does not protect an old orphan a HEAD check found: only the commit, of an
   * exposed blob, breaks the rules.
   */
  lemma HeadSkipRace(name: Name, hash: Hash)
    requires Keys.FromHex(hash).Some? && Keys.Scanned(hash)
    ensures var s, steps := Orphan(hash), HeadSteps(name, hash);
            && Enough(BOUNDS) && Complete(s)
            && Run(s, steps).Some? && !Complete(Run(s, steps).value)
            && (forall k :: 0 <= k < 6 ==>
                  Run(s, steps[..k]).Some? && Timed(BOUNDS, Run(s, steps[..k]).value, steps[k]))
            && Run(s, steps[..6]).Some? && NamesExposed(BOUNDS, Run(s, steps[..6]).value, Commit(1, name, {hash}))
  {
    var steps := HeadSteps(name, hash);
    var states := HeadStates(name, hash);
    assert steps[..7] == steps && |steps| == 7 && |states| == 8 && states[0] == Orphan(hash);
    HeadChain(name, hash);
    HeadTimed(name, hash);
    CommitsExposed(states[5], name, hash);
    assert states[6] == Lost(states[5], name, hash)[0];
    assert Enough(BOUNDS);
    hide *;
    forall k | 0 <= k <= 7
      ensures Run(states[0], steps[..k]) == Some(states[k])
    {
      ChainRuns(states, steps, k);
    }
  }

  // ---- The other commands ----

  /** A backup takes over a blob from a snapshot that `rm-snapshot` removes meanwhile. */
  function RemovalSteps(name: Name, target: Name, hash: Hash): seq<Step> {
    [StartBackup(1), KnowManifest(1, target), ReadTarget(0, target), ListOthers(0), Plan(0, {}, 0),
     DropManifest(0, target, Dropped), StartErasing(0), EraseBlob(0, hash, true, false), Commit(1, name, {hash})]
  }

  /** A bucket with one snapshot of one blob, uploaded this very moment. */
  function OneSnapshot(target: Name, hash: Hash): State {
    State(0, map[hash := 0], map[target := {hash}], map[], map[])
  }

  /** Up to the plan. */
  function Removing(target: Name, hash: Hash): seq<State> {
    var s0 := OneSnapshot(target, hash);
    var s1 := s0.(backups := s0.backups[1 := Backup({}, map[], {})]);
    var s2 := s1.(backups := s1.backups[1 := Backup({} + {hash}, map[], {})]);
    var s3 := WithGc(s2, 0, Targeted(target, {hash}));
    var s4 := WithGc(s3, 0, Planning(Remove(target, {hash}), 0, s3.manifests.Keys - {target}, map[]));
    var s5 := WithGc(s4, 0, Dropping({target}, {hash} - Union(map[]), false));
    [s0, s1, s2, s3, s4, s5]
  }

  /** From the delete of the manifest on. */
  function Removed(s: State, name: Name, target: Name, hash: Hash): seq<State> {
    var s6 := WithGc(s.(manifests := s.manifests - {target}), 0,
                     Dropping({target} - {target}, {hash} - Union(map[]), false));
    var s7 := WithGc(s6, 0, Erasing({hash} - Union(map[])));
    var s8 := WithGc(s7.(blobs := s7.blobs - {hash}), 0, Erasing({hash} - Union(map[]) - {hash}));
    var s9 := s8.(manifests := s8.manifests[name := {hash}], backups := s8.backups - {1});
    [s6, s7, s8, s9]
  }

  function RemovalStates(name: Name, target: Name, hash: Hash): seq<State> {
    Removing(target, hash) + Removed(Removing(target, hash)[5], name, target, hash)
  }

  lemma RemovingChain(target: Name, hash: Hash)
    ensures var states := Removing(target, hash);
            && Apply(states[0], StartBackup(1)) == Some(states[1])
            && Apply(states[1], KnowManifest(1, target)) == Some(states[2])
            && Apply(states[2], ReadTarget(0, target)) == Some(states[3])
            && Apply(states[3], ListOthers(0)) == Some(states[4])
            && Apply(states[4], Plan(0, {}, 0)) == Some(states[5])
  {
    assert (OneSnapshot(target, hash).manifests.Keys - {target}) == {};
    hide Union;
  }

  lemma RemovedChain(s: State, name: Name, target: Name, hash: Hash)
    requires 0 in s.gcs && s.gcs[0] == Dropping({target}, {hash} - Union(map[]), false)
    requires s.manifests == map[target := {hash}] && 1 in s.backups && hash in s.backups[1].reused
    ensures var states := Removed(s, name, target, hash);
            && Apply(s, DropManifest(0, target, Dropped)) == Some(states[0])
            && Apply(states[0], StartErasing(0)) == Some(states[1])
            && Apply(states[1], EraseBlob(0, hash, true, false)) == Some(states[2])
            && Apply(states[2], Commit(1, name, {hash})) == Some(states[3])
            && !Complete(states[3])
            && NamesExposed(BOUNDS, states[2], Commit(1, name, {hash}))
  {
    NoUnion();
    hide Union;
    var states := Removed(s, name, target, hash);
    assert states[2].manifests == map[];
    assert name in states[3].manifests && hash in states[3].manifests[name] && hash !in states[3].blobs;
    assert hash in {hash} && Exposed(BOUNDS, states[2], name, hash);
  }

  /**
   * No grace period protects a blob from `rm-snapshot`: uploaded just now, named by a manifest
   * and taken over from there by a backup, it is deleted with the manifest before the commit.
   */
  lemma RemovalRace(name: Name, target: Name, hash: Hash)
    ensures var s, steps := OneSnapshot(target, hash), RemovalSteps(name, target, hash);
            && Complete(s) && Run(s, steps).Some? && !Complete(Run(s, steps).value)
            && Run(s, steps[..8]).Some? && NamesExposed(BOUNDS, Run(s, steps[..8]).value, Commit(1, name, {hash}))
  {
    var steps := RemovalSteps(name, target, hash);
    var states := RemovalStates(name, target, hash);
    assert steps[..9] == steps && |steps| == 9 && |states| == 10 && states[0] == OneSnapshot(target, hash);
    RemovingChain(target, hash);
    RemovedChain(Removing(target, hash)[5], name, target, hash);
    assert states[8] == Removed(states[5], name, target, hash)[2];
    hide Apply;
    hide Complete;
    hide Run;
    hide NamesExposed;
    assert Chain(states, steps);
    ChainRuns(states, steps, 8);
    ChainRuns(states, steps, 9);
    SnapshotComplete(target, hash);
  }

  lemma SnapshotComplete(target: Name, hash: Hash)
    ensures Complete(OneSnapshot(target, hash))
  {
  }
}

/**
 * The GC commands of src/gc.rs as they run: every call to the store is one step of the
 * state machine, and other GC runs and backups may take any steps in between.
 */
module GcOps {
  import opened Wrappers
  import opened Bytes
  import opened GcStore
  import opened GcSafety
  import GcLive
  import Retention
  import Keys
  import Sets

  datatype GcError = Stopped | LockLost

  /** What can go wrong around a command: a request that fails, or the loss of the lock. */
  datatype Fault = NoList | Unreadable(name: Name) | Unlistable(shard: int) | LostLock

  /** All that went wrong is that one manifest could not be read. */
  ghost predicate Unread(before: seq<Fault>, faults: seq<Fault>) {
    exists name :: faults == before + [Unreadable(name)]
  }

  /** Since step `from`, `g` has deleted none but these manifests and blobs. */
  predicate OnlyDeletes(steps: seq<Step>, from: nat, g: Id, names: set<Name>, hashes: set<Hash>) {
    forall k :: from <= k < |steps| && !Foreign(steps[k], g) ==>
      && (steps[k].DropManifest? ==> steps[k].name in names)
      && (steps[k].EraseBlob? ==> steps[k].hash in hashes)
  }

  lemma OnlyMore(before: seq<Step>, steps: seq<Step>, from: nat, g: Id, names: set<Name>, hashes: set<Hash>)
    requires before <= steps && from <= |before| && OnlyDeletes(before, from, g, names, hashes)
    requires OnlyDeletes(steps, |before|, g, names, hashes)
    ensures OnlyDeletes(steps, from, g, names, hashes)
  {
  }

  /** What a command does: looks at the lock's token, starts a batch of deletes, calls the store. */
  datatype Event = Look(lost: bool) | Batch(hashes: set<Hash>) | Did(at: nat, step: Step)

  /**
   * No delete without a look: a batch of blobs and the delete of a manifest come right after the
   * token was seen unfired, and blobs are deleted within a batch alone.
   */
  predicate MayFollow(log: seq<Event>, e: Event) {
    match e
    case Look(_) => true
    case Batch(hashes) => log != [] && log[|log| - 1] == Look(false)
    case Did(_, step) =>
      && (step.DropManifest? ==> log != [] && log[|log| - 1] == Look(false))
      && (step.EraseBlob? ==>
            log != [] && (log[|log| - 1].Batch? || (log[|log| - 1].Did? && log[|log| - 1].step.EraseBlob?)))
  }

  ghost predicate Looked(log: seq<Event>) {
    forall k :: 0 <= k < |log| ==> MayFollow(log[..k], log[k])
  }

  lemma BatchMayFollow(log: seq<Event>, batch: set<Hash>)
    ensures log != [] && log[|log| - 1] == Look(false) ==> MayFollow(log, Batch(batch))
  {
  }

  lemma LookedNext(log: seq<Event>, e: Event)
    requires Looked(log) && MayFollow(log, e)
    ensures Looked(log + [e])
  {
    var more := log + [e];
    forall k | 0 <= k < |more|
      ensures MayFollow(more[..k], more[k])
    {
      assert more[..k] == log[..k];
      if k == |log| {
        assert log[..k] == log;
      }
    }
  }

  /** A read of `g` has found a listed manifest gone. */
  ghost predicate Vanished(first: State, steps: seq<Step>, from: nat, g: Id) {
    exists k :: from <= k < |steps| && steps[k].ReadManifest? && steps[k].g == g
                && GoneAt(first, steps, k, steps[k].name)
  }

  ghost predicate GoneAt(first: State, steps: seq<Step>, k: nat, name: Name) {
    k <= |steps| && Run(first, steps[..k]).Some? && name !in Run(first, steps[..k]).value.manifests
  }

  /** At some moment since step `from` there was no manifest of the name. */
  ghost predicate WasGone(first: State, steps: seq<Step>, from: nat, name: Name) {
    exists k :: from <= k <= |steps| && GoneAt(first, steps, k, name)
  }

  /** A manifest delete of `g` was not confirmed. */
  predicate Unconfirmed(steps: seq<Step>, from: nat, g: Id) {
    exists k :: from <= k < |steps| && steps[k].DropManifest? && steps[k].g == g && !steps[k].outcome.Dropped?
  }

  lemma VanishedLater(first: State, before: seq<Step>, steps: seq<Step>, from: nat, since: nat, g: Id)
    requires before <= steps && since <= from && Vanished(first, before, from, g)
    ensures Vanished(first, steps, since, g)
  {
    var k :| from <= k < |before| && before[k].ReadManifest? && before[k].g == g
             && GoneAt(first, before, k, before[k].name);
    assert before[..k] == steps[..k] && steps[k] == before[k];
    assert GoneAt(first, steps, k, steps[k].name);
  }

  const BATCH_SIZE := 1000

  predicate OfGc(step: Step) {
    !(step.Tick? || step.StartBackup? || step.KnowManifest? || step.HeadSkip? || step.Upload?
      || step.Commit? || step.StopBackup?)
  }

  /** A step that is not of the GC run `g`. */
  predicate Foreign(step: Step, g: Id) { !OfGc(step) || step.g != g }

  /** A step that is not of `g`, or no delete. */
  predicate Harmless(step: Step, g: Id) {
    Foreign(step, g) || !(step.DropManifest? || step.EraseBlob?)
  }

  predicate HarmlessFrom(steps: seq<Step>, from: nat, g: Id) {
    forall k :: from <= k < |steps| ==> Harmless(steps[k], g)
  }

  /** From step `from` on, `g` has tried to delete the blob. */
  predicate Tried(steps: seq<Step>, from: nat, g: Id, hash: Hash) {
    exists k :: from <= k < |steps| && steps[k].EraseBlob? && steps[k].g == g && steps[k].hash == hash
  }

  /** From step `from` on, `g` has tried to delete the manifest. */
  predicate DropTried(steps: seq<Step>, from: nat, g: Id, name: Name) {
    exists k :: from <= k < |steps| && steps[k].DropManifest? && steps[k].g == g && steps[k].name == name
  }

  /**
   * Every candidate `g` has come across since step `from` is pending or has been tried since,
   * and nothing else is pending.
   */
  predicate Candidates(steps: seq<Step>, from: nat, g: Id, pending: set<Hash>) {
    && (forall h :: h in pending ==> ListedIn(steps, from, |steps|, g, h))
    && forall k :: from <= k < |steps| && steps[k].ListBlob? && steps[k].g == g ==>
         steps[k].hash in pending || Tried(steps, k, g, steps[k].hash)
  }

  /** The phase of `g` after the first `at` steps is `p`. */
  ghost predicate PhaseAt(first: State, steps: seq<Step>, at: nat, g: Id, p: Gc) {
    && at <= |steps| && Run(first, steps[..at]).Some?
    && g in Run(first, steps[..at]).value.gcs && Run(first, steps[..at]).value.gcs[g] == p
  }

  lemma PhaseLater(first: State, before: seq<Step>, steps: seq<Step>, at: nat, g: Id, p: Gc)
    requires before <= steps && PhaseAt(first, before, at, g, p)
    ensures PhaseAt(first, steps, at, g, p)
  {
    assert before[..at] == steps[..at];
  }

  /** After the first `at` steps, `g` has read all it listed, and it is `read`. */
  ghost predicate HasRead(first: State, steps: seq<Step>, at: nat, g: Id, read: map<Name, Manifest>) {
    && at <= |steps| && Run(first, steps[..at]).Some? && g in Run(first, steps[..at]).value.gcs
    && var p := Run(first, steps[..at]).value.gcs[g];
       p.Planning? && p.kind == Live && p.unread == {} && p.read == read
  }


  /** After the first `k` steps the manifest is there, with these parts. */
  ghost predicate ManifestAt(first: State, steps: seq<Step>, k: nat, name: Name, parts: Manifest) {
    && k <= |steps| && Run(first, steps[..k]).Some?
    && name in Run(first, steps[..k]).value.manifests && Run(first, steps[..k]).value.manifests[name] == parts
  }

  /** At some moment since step `from` the manifest was there, with these parts. */
  ghost predicate WasThere(first: State, steps: seq<Step>, from: nat, name: Name, parts: Manifest) {
    exists k :: from <= k <= |steps| && ManifestAt(first, steps, k, name, parts)
  }

  lemma ThereLater(first: State, before: seq<Step>, steps: seq<Step>, from: nat, since: nat, name: Name,
                   parts: Manifest)
    requires before <= steps && since <= from && WasThere(first, before, from, name, parts)
    ensures WasThere(first, steps, since, name, parts)
  {
    var k :| from <= k <= |before| && ManifestAt(first, before, k, name, parts);
    assert before[..k] == steps[..k];
    assert ManifestAt(first, steps, k, name, parts);
  }

  lemma AllThereLater(first: State, before: seq<Step>, steps: seq<Step>, from: nat, since: nat,
                      read: map<Name, Manifest>)
    requires before <= steps && since <= from
    requires forall n :: n in read ==> WasThere(first, before, from, n, read[n])
    ensures forall n :: n in read ==> WasThere(first, steps, since, n, read[n])
  {
    hide WasThere;
    forall n | n in read
      ensures WasThere(first, steps, since, n, read[n])
    {
      ThereLater(first, before, steps, from, since, n, read[n]);
    }
  }

  /** After the first `l` steps there are these manifests and those of `but`. */
  ghost predicate ListedAt(first: State, steps: seq<Step>, l: nat, but: set<Name>, names: set<Name>) {
    && l <= |steps| && Run(first, steps[..l]).Some?
    && names == Run(first, steps[..l]).value.manifests.Keys - but
  }

  /**
   * All manifests, but those of `but`, that were there at one moment since step `from`, each with
   * the parts it had at some moment after that.
   */
  ghost predicate AllRead(first: State, steps: seq<Step>, from: nat, but: set<Name>, read: map<Name, Manifest>) {
    exists l :: from <= l && ListedAt(first, steps, l, but, read.Keys)
                && forall n :: n in read ==> WasThere(first, steps, l, n, read[n])
  }

  lemma ReadIsAll(first: State, before: seq<Step>, steps: seq<Step>, from: nat, since: nat, but: set<Name>,
                  read: map<Name, Manifest>)
    requires before <= steps && since <= |before| <= from && ListedAt(first, before, |before|, but, read.Keys)
    requires forall n :: n in read ==> WasThere(first, steps, from, n, read[n])
    ensures AllRead(first, steps, since, but, read)
  {
    assert before[..|before|] == steps[..|before|];
    AllThereLater(first, steps, steps, from, |before|, read);
    assert ListedAt(first, steps, |before|, but, read.Keys);
  }

  lemma AllReadLater(first: State, before: seq<Step>, steps: seq<Step>, from: nat, but: set<Name>,
                     read: map<Name, Manifest>)
    requires before <= steps && AllRead(first, before, from, but, read)
    ensures AllRead(first, steps, from, but, read)
  {
    var l :| from <= l && ListedAt(first, before, l, but, read.Keys)
             && forall n :: n in read ==> WasThere(first, before, l, n, read[n]);
    assert before[..l] == steps[..l];
    AllThereLater(first, before, steps, l, l, read);
    assert ListedAt(first, steps, l, but, read.Keys);
  }

  lemma ReadsLater(first: State, before: seq<Step>, steps: seq<Step>, from: nat, at: nat, g: Id,
                   read: map<Name, Manifest>)
    requires before <= steps && HasRead(first, before, at, g, read) && AllRead(first, before, from, {}, read)
    ensures HasRead(first, steps, at, g, read) && AllRead(first, steps, from, {}, read)
  {
    assert before[..at] == steps[..at];
    AllReadLater(first, before, steps, from, {}, read);
  }

  /** Some of these manifests names the blob. */
  ghost predicate NamedIn(read: map<Name, Manifest>, hash: Hash) {
    exists n :: n in read && hash in read[n]
  }

  /** After the first `at` steps, `g` is about to look for blobs as old as `grace` that none of `read` names. */
  ghost predicate Scans(first: State, steps: seq<Step>, at: nat, g: Id, read: map<Name, Manifest>, grace: int) {
    && at <= |steps| && Run(first, steps[..at]).Some?
    && var t := Run(first, steps[..at]).value;
       && g in t.gcs && t.gcs[g].Scanning? && t.gcs[g].pending == {} && t.gcs[g].cutoff == t.now - grace
       && forall h :: h in t.gcs[g].referenced <==> NamedIn(read, h)
  }

  lemma ScansLater(first: State, before: seq<Step>, steps: seq<Step>, at: nat, g: Id, read: map<Name, Manifest>,
                   grace: int)
    requires before <= steps && Scans(first, before, at, g, read, grace)
    ensures Scans(first, steps, at, g, read, grace)
  {
    assert before[..at] == steps[..at];
  }

  /** What pruning is to delete: the blobs some pruned manifest names and no kept one. */
  lemma ExclusiveExactly(read: map<Name, Manifest>, prune: set<Name>, hash: Hash)
    requires prune <= read.Keys
    ensures hash in Exclusive(read, prune) <==>
            && (exists n :: n in prune && hash in read[n])
            && forall n :: n in read && n !in prune ==> hash !in read[n]
  {
    var some, kept := Only(read, prune), read - prune;
    assert hash in Union(some) <==> exists n :: n in some && hash in some[n];
    assert hash in Union(kept) <==> exists n :: n in kept && hash in kept[n];
    assert some.Keys == prune;
    if n :| n in prune && hash in read[n] {
      assert n in some && hash in some[n];
    }
    if n :| n in read && n !in prune && hash in read[n] {
      assert n in kept && hash in kept[n];
    }
  }

  /** To be deleted: what the snapshot names and none of the others. */
  ghost predicate DueWith(due: set<Hash>, parts: Manifest, read: map<Name, Manifest>) {
    forall h :: h in due <==> h in parts && forall n :: n in read ==> h !in read[n]
  }

  /** A delete that takes effect leaves no manifest, and no blob, of that name. */
  lemma DeletesDelete(s: State, step: Step)
    requires Apply(s, step).Some?
    ensures step.DropManifest? && !step.outcome.NotDropped? ==> step.name !in Apply(s, step).value.manifests
    ensures step.EraseBlob? && step.effect ==> step.hash !in Apply(s, step).value.blobs
  {
  }

  lemma TriedLater(before: seq<Step>, steps: seq<Step>, from: nat, g: Id, hash: Hash)
    requires before <= steps && Tried(before, from, g, hash)
    ensures Tried(steps, from, g, hash)
  {
    var k :| from <= k < |before| && before[k].EraseBlob? && before[k].g == g && before[k].hash == hash;
    assert steps[k] == before[k];
  }

  /** Steps of others and deletes add no candidate. */
  lemma CandidatesLater(before: seq<Step>, steps: seq<Step>, from: nat, g: Id, pending: set<Hash>, left: set<Hash>)
    requires before <= steps && Candidates(before, from, g, pending)
    requires forall k :: |before| <= k < |steps| && steps[k].ListBlob? && steps[k].g == g ==> steps[k].hash in left
    requires forall h :: h in pending && h !in left ==> Tried(steps, |before|, g, h)
    requires forall h :: h in left && h !in pending ==>
               from <= |before| && ListedIn(steps, |before|, |steps|, g, h)
    ensures Candidates(steps, from, g, left)
  {
    forall h | h in left && h in pending
      ensures ListedIn(steps, from, |steps|, g, h)
    {
      ListedLater(before, steps, from, |before|, |steps|, g, h);
    }
    forall k | from <= k < |steps| && steps[k].ListBlob? && steps[k].g == g && steps[k].hash !in left
      ensures Tried(steps, k, g, steps[k].hash)
    {
      assert before[k] == steps[k];
      if steps[k].hash in pending {
        TriedEarlier(steps, |before|, k, g, steps[k].hash);
      } else {
        TriedLater(before, steps, k, g, steps[k].hash);
      }
    }
  }

  lemma TriedEarlier(steps: seq<Step>, from: nat, since: nat, g: Id, hash: Hash)
    requires since <= from && Tried(steps, from, g, hash)
    ensures Tried(steps, since, g, hash)
  {
  }

  lemma OneCandidate(before: seq<Step>, from: nat, g: Id, hash: Hash, pending: set<Hash>)
    requires from <= |before| && Candidates(before, from, g, pending)
    ensures Candidates(before + [ListBlob(g, hash)], from, g, pending + {hash})
  {
    assert (before + [ListBlob(g, hash)])[|before|] == ListBlob(g, hash);
    CandidatesLater(before, before + [ListBlob(g, hash)], from, g, pending, pending + {hash});
  }

  /** Nothing new came up, and what was pending has been tried. */
  lemma CandidatesTried(before: seq<Step>, steps: seq<Step>, from: nat, g: Id, pending: set<Hash>, left: set<Hash>)
    requires left <= pending
    requires before <= steps && Candidates(before, from, g, pending) && NoListing(steps, |before|, g)
    requires forall h :: h in pending && h !in left ==> Tried(steps, |before|, g, h)
    ensures Candidates(steps, from, g, left)
  {
    CandidatesLater(before, steps, from, g, pending, left);
  }

  lemma NoCandidates(steps: seq<Step>, g: Id)
    ensures Candidates(steps, |steps|, g, {})
  {
  }

  lemma StopLast(steps: seq<Step>, g: Id)
    ensures var all := steps + [StopGc(g)];
            HarmlessFrom(all, |steps|, g) && NoListing(all, |steps|, g)
  {
  }

  lemma DryStop(start: seq<Step>, steps: seq<Step>, g: Id)
    requires start <= steps && HarmlessFrom(steps, |start|, g)
    ensures HarmlessFrom(steps + [StopGc(g)], |start|, g)
  {
  }

  lemma PlanHarmless(start: seq<Step>, steps: seq<Step>, g: Id, prune: set<Name>)
    requires start <= steps && HarmlessFrom(steps, |start|, g)
    ensures HarmlessFrom(steps + [Plan(g, prune, 0)], |start|, g)
  {
  }

  lemma NoneKept(p: Retention.Policy, now: int)
    ensures Retention.NotKept(p, now, []) == {}
  {
  }

  lemma EarlierToo(steps: seq<Step>, from: nat, since: nat, g: Id, names: set<Name>, hashes: set<Hash>, done: bool)
    requires since <= from
    requires done ==> forall n :: n in names ==> DropTried(steps, from, g, n)
    requires done ==> forall h :: h in hashes ==> Tried(steps, from, g, h)
    ensures done ==> forall n :: n in names ==> DropTried(steps, since, g, n)
    ensures done ==> forall h :: h in hashes ==> Tried(steps, since, g, h)
  {
  }

  predicate NoListing(steps: seq<Step>, from: nat, g: Id) {
    forall k :: from <= k < |steps| ==> !(steps[k].ListBlob? && steps[k].g == g)
  }

  lemma ForeignKeeps(s: State, step: Step, g: Id)
    requires Foreign(step, g) && Apply(s, step).Some?
    ensures var t := Apply(s, step).value;
            (g in t.gcs <==> g in s.gcs) && (g in s.gcs ==> t.gcs[g] == s.gcs[g])
  {
  }

  lemma NothingHarms(steps: seq<Step>, g: Id)
    ensures HarmlessFrom(steps, |steps|, g)
  {
  }

  lemma BothHarmless(before: seq<Step>, steps: seq<Step>, from: nat, g: Id, dryRun: bool)
    requires before <= steps && from <= |before|
    requires dryRun ==> HarmlessFrom(steps, |before|, g)
    ensures dryRun && HarmlessFrom(before, from, g) ==> HarmlessFrom(steps, from, g)
  {
  }

  lemma PendingAtAll(pending: set<Hash>)
    requires |pending| >= BATCH_SIZE
    ensures pending != {}
  {
  }

  /** At most `BATCH_SIZE` of what is pending. */
  method TakeBatch(pending: set<Hash>) returns (batch: set<Hash>)
    requires pending != {}
    ensures {} < batch <= pending && |batch| <= 1000
    ensures |batch| < 1000 ==> batch == pending
  {
    batch := {};
    while batch != pending && |batch| < BATCH_SIZE
      invariant batch <= pending && |batch| <= BATCH_SIZE
      decreases pending - batch
    {
      assert pending - batch != {};
      var hash :| hash in pending - batch;
      batch := batch + {hash};
    }
  }

  /** The shards that are not listed are those whose LIST has failed. */
  ghost predicate FailedAre(faults: seq<Fault>, failed: set<int>) {
    forall k :: k in failed <==> Unlistable(k) in faults
  }

  lemma NoneFailed()
    ensures FailedAre([], {})
  {
  }

  lemma OneMoreFault(earlier: seq<Fault>, before: seq<Fault>, faults: seq<Fault>, f: Fault, failed: set<int>)
    requires faults == earlier + before + [f] && FailedAre(before, failed)
    ensures faults[|earlier|..] == before + [f]
    ensures FailedAre(faults[|earlier|..], if f.Unlistable? then failed + {f.shard} else failed)
    ensures LostLock in faults[|earlier|..] <==> LostLock in before || f == LostLock
  {
    assert faults[|earlier|..] == before + [f];
    assert (before + [f])[|before|] == f;
  }

  // ---- What a LIST covers ----

  predicate IsShard(k: int) { 0 <= k < 256 }

  function Shards(): set<int> { set k | 0 <= k < 256 && IsShard(k) }

  /** Every shard is in exactly one of the four. */
  predicate Parted(waiting: set<int>, open: set<int>, done: set<int>, failed: set<int>) {
    && waiting + open + done + failed == Shards()
    && waiting !! open && waiting + open !! done && waiting + open + done !! failed
  }

  lemma AllWait()
    ensures Parted(Shards(), {}, {}, {})
  {
  }

  lemma AllDone(done: set<int>, failed: set<int>)
    requires Parted({}, {}, done, failed)
    ensures done == Shards() - failed
  {
  }

  lemma PartsAreShards(waiting: set<int>, open: set<int>, done: set<int>, failed: set<int>)
    requires Parted(waiting, open, done, failed)
    ensures waiting <= Shards() && open <= Shards()
  {
  }

  /** A shard moves on. */
  lemma Parting(waiting: set<int>, open: set<int>, done: set<int>, failed: set<int>, k: int)
    requires Parted(waiting, open, done, failed)
    ensures k in waiting ==> Parted(waiting - {k}, open, done, failed + {k})
    ensures k in waiting ==> Parted(waiting - {k}, open + {k}, done, failed)
    ensures k in open ==> Parted(waiting, open - {k}, done + {k}, failed)
  {
    hide Shards;
  }

  method AnyShard(shards: set<int>) returns (k: int)
    requires {} < shards <= Shards()
    ensures k in shards && IsShard(k)
  {
    Sets.EmptyOrNot(shards);
    k :| k in shards;
  }

  /** The blob exists, is old enough, and its key is selected. */
  predicate Orphan(s: State, g: Id, hash: Hash) { g in s.gcs && ApplyListBlob(s, g, hash).Some? }

  function Orphans(s: State, g: Id): set<Hash> { set h | h in s.blobs && Orphan(s, g, h) }

  function OrphansOf(s: State, g: Id, shard: int): set<Hash> {
    set h | h in s.blobs && Orphan(s, g, h) && Keys.InShard(h, shard)
  }

  ghost predicate OrphanAt(first: State, steps: seq<Step>, at: nat, g: Id, hash: Hash) {
    at <= |steps| && Run(first, steps[..at]).Some? && Orphan(Run(first, steps[..at]).value, g, hash)
  }

  /** An orphan all the time from after `a` steps to after `b`. */
  ghost predicate Throughout(first: State, steps: seq<Step>, a: nat, b: nat, g: Id, hash: Hash) {
    forall i :: a <= i <= b ==> OrphanAt(first, steps, i, g, hash)
  }

  predicate ListedIn(steps: seq<Step>, a: nat, b: nat, g: Id, hash: Hash) {
    exists k :: a <= k < b && k < |steps| && steps[k] == ListBlob(g, hash)
  }

  /** Every orphan of the shard has been reported or has had its delete tried. */
  ghost predicate Covered(first: State, steps: seq<Step>, a: nat, b: nat, g: Id, shard: int, reported: set<Hash>) {
    forall h :: Keys.InShard(h, shard) && Throughout(first, steps, a, b, g, h) ==>
      h in reported || Tried(steps, a, g, h)
  }

  ghost predicate AllCovered(first: State, steps: seq<Step>, from: nat, g: Id, ended: map<int, (nat, nat)>,
                             reported: set<Hash>) {
    forall k :: k in ended ==>
      && from <= ended[k].0 <= ended[k].1 < |steps|
      && Covered(first, steps, ended[k].0, ended[k].1, g, k, reported)
  }

  /** Every orphan of the shard from `a` to `b` has been listed by then, or is due. */
  ghost predicate Seen(first: State, steps: seq<Step>, a: nat, b: nat, g: Id, shard: int, due: set<Hash>) {
    forall h :: Keys.InShard(h, shard) && Throughout(first, steps, a, b, g, h) ==>
      h in due || ListedIn(steps, a, b, g, h)
  }

  /** Listings under way, with their start, and listings at their end. */
  ghost predicate Listings(first: State, steps: seq<Step>, from: nat, g: Id,
                           since: map<int, nat>, ended: map<int, (nat, nat)>, due: set<Hash>) {
    && (forall k :: k in ended ==>
          from <= ended[k].0 <= ended[k].1 <= |steps| && Seen(first, steps, ended[k].0, ended[k].1, g, k, {}))
    && (forall k :: k in since ==>
          from <= since[k] <= |steps| && Seen(first, steps, since[k], |steps|, g, k, due))
  }

  lemma NoListings(first: State, steps: seq<Step>, from: nat, g: Id)
    ensures Listings(first, steps, from, g, map[], map[], {})
  {
  }

  lemma NoneUnderWay(first: State, steps: seq<Step>, from: nat, g: Id, ended: map<int, (nat, nat)>, due: set<Hash>)
    requires Listings(first, steps, from, g, map[], ended, due)
    ensures Listings(first, steps, from, g, map[], ended, {})
  {
  }

  lemma OrphansOfMeans(s: State, g: Id, shard: int, hash: Hash)
    ensures hash in OrphansOf(s, g, shard) ==> Orphan(s, g, hash)
  {
  }

  lemma ThroughoutBefore(first: State, before: seq<Step>, steps: seq<Step>, a: nat, b: nat, c: nat, g: Id, hash: Hash)
    requires before <= steps && b <= c && b <= |before| && Throughout(first, steps, a, c, g, hash)
    ensures Throughout(first, before, a, b, g, hash)
  {
    forall i | a <= i <= b
      ensures OrphanAt(first, before, i, g, hash)
    {
      assert OrphanAt(first, steps, i, g, hash);
      assert before[..i] == steps[..i];
    }
  }

  lemma ListedLater(before: seq<Step>, steps: seq<Step>, a: nat, b: nat, c: nat, g: Id, hash: Hash)
    requires before <= steps && b <= c && ListedIn(before, a, b, g, hash)
    ensures ListedIn(steps, a, c, g, hash)
  {
    var k :| a <= k < b && k < |before| && before[k] == ListBlob(g, hash);
    assert steps[k] == ListBlob(g, hash);
  }

  lemma SeenLater(first: State, before: seq<Step>, steps: seq<Step>, a: nat, b: nat, c: nat, g: Id, shard: int,
                  due: set<Hash>, left: set<Hash>)
    requires before <= steps && b <= c && b <= |before| && Seen(first, before, a, b, g, shard, due)
    requires forall h :: h in due && OrphanAt(first, steps, c, g, h) ==> h in left || ListedIn(steps, a, c, g, h)
    requires a <= c
    ensures Seen(first, steps, a, c, g, shard, left)
  {
    hide OrphanAt;
    hide ListedIn;
    hide Keys.InShard;
    forall h | Keys.InShard(h, shard) && Throughout(first, steps, a, c, g, h)
      ensures h in left || ListedIn(steps, a, c, g, h)
    {
      ThroughoutBefore(first, before, steps, a, b, c, g, h);
      if h !in due {
        ListedLater(before, steps, a, b, c, g, h);
      }
    }
  }

  /** What was due and still is an orphan is due, or listed now. */
  lemma ListingsLater(first: State, before: seq<Step>, steps: seq<Step>, from: nat, g: Id,
                      since: map<int, nat>, ended: map<int, (nat, nat)>, due: set<Hash>, left: set<Hash>)
    requires before <= steps && Listings(first, before, from, g, since, ended, due)
    requires forall h :: h in due && OrphanAt(first, steps, |steps|, g, h) ==>
               h in left || ListedIn(steps, |before|, |steps|, g, h)
    ensures Listings(first, steps, from, g, since, ended, left)
  {
    hide Seen;
    hide OrphanAt;
    forall k | k in ended
      ensures Seen(first, steps, ended[k].0, ended[k].1, g, k, {})
    {
      SeenLater(first, before, steps, ended[k].0, ended[k].1, ended[k].1, g, k, {}, {});
    }
    forall k | k in since
      ensures Seen(first, steps, since[k], |steps|, g, k, left)
    {
      SeenLater(first, before, steps, since[k], |before|, |steps|, g, k, due, left);
    }
  }

  /** At the end, what has been listed has been reported or tried. */
  lemma EndedListings(first: State, before: seq<Step>, steps: seq<Step>, from: nat, g: Id,
                      ended: map<int, (nat, nat)>, reported: set<Hash>)
    requires before < steps && Listings(first, before, from, g, map[], ended, {})
    requires Candidates(steps, from, g, reported)
    ensures AllCovered(first, steps, from, g, ended, reported)
  {
    ListingsLater(first, before, steps, from, g, map[], ended, {}, {});
    forall k, h | k in ended && Keys.InShard(h, k) && Throughout(first, steps, ended[k].0, ended[k].1, g, h)
      ensures h in reported || Tried(steps, ended[k].0, g, h)
    {
      assert Seen(first, steps, ended[k].0, ended[k].1, g, k, {});
      ListedIsTried(steps, from, ended[k].0, ended[k].1, g, h, reported);
    }
  }

  lemma ListedIsTried(steps: seq<Step>, from: nat, a: nat, b: nat, g: Id, hash: Hash, reported: set<Hash>)
    requires Candidates(steps, from, g, reported) && from <= a && ListedIn(steps, a, b, g, hash)
    ensures hash in reported || Tried(steps, a, g, hash)
  {
    var k :| a <= k < b && k < |steps| && steps[k] == ListBlob(g, hash);
    if hash !in reported {
      TriedEarlier(steps, k, a, g, hash);
    }
  }

  // ---- Causes ----

  /** Why a command ends with the error: a fault, or a listed manifest that has vanished. */
  ghost predicate Cause(first: State, steps: seq<Step>, from: nat, g: Id, faults: seq<Fault>, e: GcError) {
    match e
    case LockLost => LostLock in faults
    case Stopped => NoList in faults || (exists name :: Unreadable(name) in faults) || Vanished(first, steps, from, g)
  }

  lemma NoFault(earlier: seq<Fault>)
    ensures earlier[|earlier|..] == []
  {
  }

  lemma NewFault(earlier: seq<Fault>, f: Fault)
    ensures f in (earlier + [f])[|earlier|..]
  {
    assert (earlier + [f])[|earlier|..] == [f];
  }

  lemma LostCause(earlier: seq<Fault>, faults: seq<Fault>, first: State, steps: seq<Step>, from: nat, g: Id)
    requires faults == earlier + [LostLock]
    ensures Cause(first, steps, from, g, faults[|earlier|..], LockLost)
  {
    NewFault(earlier, LostLock);
  }

  lemma ReadCause(earlier: seq<Fault>, faults: seq<Fault>, first: State, steps: seq<Step>, from: nat, since: nat, g: Id)
    requires earlier <= faults && since <= from
    requires Unread(earlier, faults) || (faults == earlier && Vanished(first, steps, from, g))
    ensures Cause(first, steps, since, g, faults[|earlier|..], Stopped)
  {
    if Unread(earlier, faults) {
      var name :| faults == earlier + [Unreadable(name)];
      NewFault(earlier, Unreadable(name));
    } else {
      VanishedLater(first, steps, steps, from, since, g);
    }
  }

  lemma DropCause(first: State, steps: seq<Step>, from: nat, since: nat, g: Id, faults: seq<Fault>, e: GcError)
    requires since <= from
    requires (e == LockLost && faults == [LostLock]) || (e == Stopped && Unconfirmed(steps, from, g))
    ensures Cause(first, steps, since, g, faults, e) || (e == Stopped && Unconfirmed(steps, since, g))
  {
  }

  lemma HarmlessDeletes(steps: seq<Step>, from: nat, g: Id, names: set<Name>, hashes: set<Hash>)
    requires HarmlessFrom(steps, from, g)
    ensures OnlyDeletes(steps, from, g, names, hashes)
  {
  }

  lemma NoneDeleted(steps: seq<Step>, at: nat, g: Id, names: set<Name>, hashes: set<Hash>)
    requires at == |steps|
    ensures OnlyDeletes(steps, at, g, names, hashes)
  {
  }

  lemma StopOnly(steps: seq<Step>, from: nat, g: Id, names: set<Name>, hashes: set<Hash>)
    requires OnlyDeletes(steps, from, g, names, hashes)
    ensures OnlyDeletes(steps + [StopGc(g)], from, g, names, hashes)
  {
  }

  lemma OnlyWider(steps: seq<Step>, from: nat, g: Id, names: set<Name>, hashes: set<Hash>,
                  more: set<Name>, others: set<Hash>)
    requires OnlyDeletes(steps, from, g, names, hashes) && names <= more && hashes <= others
    ensures OnlyDeletes(steps, from, g, more, others)
  {
  }

  lemma NothingListed(steps: seq<Step>, g: Id)
    ensures NoListing(steps, |steps|, g)
  {
  }

  lemma OneErased(before: seq<Step>, steps: seq<Step>, from: nat, g: Id, hash: Hash, took: bool, again: bool)
    requires before <= steps && from <= |before|
    requires OnlyDeletes(before, from, g, {}, {hash}) && NoListing(before, from, g)
    requires HarmlessFrom(steps, |before|, g) && NoListing(steps, |before|, g)
    ensures var all := steps + [EraseBlob(g, hash, took, again)];
            OnlyDeletes(all, from, g, {}, {hash}) && NoListing(all, from, g) && Tried(all, from, g, hash)
  {
    var all := steps + [EraseBlob(g, hash, took, again)];
    assert all[|steps|].EraseBlob?;
  }

  class Bucket {
    var s: State
    ghost const first: State
    ghost var trace: seq<Step>
    ghost var faults: seq<Fault>
    ghost var own: seq<Event>

    /** The present state is the end of a run of the state machine, and every delete was looked before. */
    ghost predicate Valid()
      reads this
    {
      && first.gcs == map[] && Run(first, trace) == Some(s) && Looked(own)
      && forall k :: 0 <= k < |own| && own[k].Did? ==> own[k].at < |trace| && trace[own[k].at] == own[k].step
    }

    constructor (start: State)
      requires start.gcs == map[]
      ensures Valid() && s == start && trace == [] && faults == [] && own == []
    {
      s := start;
      first, trace, faults, own := start, [], [], [];
    }

    /** A step of the command. */
    method Call(step: Step)
      requires Valid() && Apply(s, step).Some? && MayFollow(own, Did(|trace|, step))
      modifies this
      ensures Valid() && s == Apply(old(s), step).value && trace == old(trace) + [step]
      ensures faults == old(faults) && own == old(own) + [Did(|old(trace)|, step)]
    {
      RunSnoc(first, trace, step);
      LookedNext(own, Did(|trace|, step));
      s := Apply(s, step).value;
      own := own + [Did(|trace|, step)];
      trace := trace + [step];
    }

    /** Anything the others do meanwhile. */
    method Others(g: Id)
      requires Valid()
      modifies this
      ensures Valid() && old(trace) <= trace && HarmlessFrom(trace, |old(trace)|, g)
      ensures faults == old(faults) && own == old(own)
      ensures NoListing(trace, |old(trace)|, g)
      ensures (g in s.gcs <==> g in old(s.gcs)) && (g in s.gcs ==> s.gcs[g] == old(s.gcs[g]))
    {
      hide Apply;
      hide Run;
      var rounds: nat := *;
      while rounds > 0
        invariant Valid() && old(trace) <= trace && HarmlessFrom(trace, |old(trace)|, g)
        invariant faults == old(faults) && own == old(own)
        invariant NoListing(trace, |old(trace)|, g)
        invariant (g in s.gcs <==> g in old(s.gcs)) && (g in s.gcs ==> s.gcs[g] == old(s.gcs[g]))
      {
        var step: Step := *;
        if Foreign(step, g) && Apply(s, step).Some? {
          ForeignKeeps(s, step, g);
          RunSnoc(first, trace, step);
          s := Apply(s, step).value;
          trace := trace + [step];
        }
        rounds := rounds - 1;
      }
    }

    /** Whether a request fails is not up to the command. */
    method Meets(fault: Fault) returns (met: bool)
      requires Valid()
      modifies this`faults
      ensures Valid() && faults == if met then old(faults) + [fault] else old(faults)
    {
      met := *;
      faults := if met then faults + [fault] else faults;
    }

    /** `bail_if_lock_lost`: looks at the token. */
    method LockLooksLost() returns (lost: bool)
      requires Valid()
      modifies this`faults, this`own
      ensures Valid() && own == old(own) + [Look(lost)]
      ensures faults == if lost then old(faults) + [LostLock] else old(faults)
    {
      lost := Meets(LostLock);
      LookedNext(own, Look(lost));
      own := own + [Look(lost)];
    }

    /**
     * Reads every listed manifest; it ends the run exactly when one cannot be read, or has
     * vanished since it was listed.
     */
    method ReadAll(g: Id) returns (ok: bool)
      requires Valid() && g in s.gcs && s.gcs[g].Planning? && s.gcs[g].read == map[]
      modifies this
      ensures Valid() && old(trace) <= trace && HarmlessFrom(trace, |old(trace)|, g)
      ensures ok ==> g in s.gcs && s.gcs[g].Planning? && s.gcs[g].unread == {}
                     && s.gcs[g].kind == old(s.gcs[g].kind)
                     && s.gcs[g].read.Keys == old(s.gcs[g].unread)
                     && forall n :: n in s.gcs[g].read ==> WasThere(first, trace, |old(trace)|, n, s.gcs[g].read[n])
      ensures !ok ==> g !in s.gcs
      ensures old(faults) <= faults && (ok ==> faults == old(faults))
      ensures !ok ==> Unread(old(faults), faults) || (faults == old(faults) && Vanished(first, trace, |old(trace)|, g))
    {
      hide Vanished;
      hide WasThere;
      hide Looked;
      hide Run;
      while s.gcs[g].unread != {}
        invariant Valid() && old(trace) <= trace && HarmlessFrom(trace, |old(trace)|, g)
        invariant g in s.gcs && s.gcs[g].Planning? && s.gcs[g].kind == old(s.gcs[g].kind)
        invariant s.gcs[g].read.Keys + s.gcs[g].unread == old(s.gcs[g].unread)
        invariant forall n :: n in s.gcs[g].read ==> WasThere(first, trace, |old(trace)|, n, s.gcs[g].read[n])
        invariant faults == old(faults)
        decreases s.gcs[g].unread
      {
        ghost var earlier, read := trace, s.gcs[g].read;
        Others(g);
        AllThereLater(first, earlier, trace, |old(trace)|, |old(trace)|, read);
        var name :| name in s.gcs[g].unread;
        var fails := Meets(Unreadable(name));
        if fails {
          Call(StopGc(g));
          return false;
        }
        ghost var before := trace;
        ReadFindsNone(g, name, |old(trace)|);
        Call(ReadManifest(g, name));
        if g !in s.gcs {
          assert trace == before + [ReadManifest(g, name)];
          return false;
        }
        AllThereLater(first, before, trace, |old(trace)|, |old(trace)|, read);
      }
      ok := true;
    }

    lemma ReadFindsNone(g: Id, name: Name, from: nat)
      requires Valid() && g in s.gcs && s.gcs[g].Planning? && name in s.gcs[g].unread && from <= |trace|
      ensures name !in s.manifests ==> Vanished(first, trace + [ReadManifest(g, name)], from, g)
      ensures g !in Apply(s, ReadManifest(g, name)).value.gcs ==> name !in s.manifests
      ensures name in s.manifests ==>
                WasThere(first, trace + [ReadManifest(g, name)], from, name, s.manifests[name])
    {
      var steps := trace + [ReadManifest(g, name)];
      assert steps[..|trace|] == trace && steps[|trace|] == ReadManifest(g, name);
      if name !in s.manifests {
        assert GoneAt(first, steps, |trace|, name);
      } else {
        assert ManifestAt(first, steps, |trace|, name, s.manifests[name]);
      }
    }

    /** The delete of one blob; it may fail, and may be repeated after a lost reply. */
    method EraseOne(g: Id, hash: Hash)
      requires Valid() && g in s.gcs && (s.gcs[g].Scanning? || s.gcs[g].Erasing?) && hash in s.gcs[g].pending
      requires MayFollow(own, Did(0, EraseBlob(g, hash, true, true)))
      modifies this
      ensures Valid() && old(trace) <= trace && NoListing(trace, |old(trace)|, g) && faults == old(faults)
      ensures MayFollow(own, Did(0, EraseBlob(g, hash, true, true)))
      ensures OnlyDeletes(trace, |old(trace)|, g, {}, {hash})
      ensures Tried(trace, |old(trace)|, g, hash)
      ensures g in s.gcs && s.gcs[g] == old(s.gcs[g]).(pending := old(s.gcs[g].pending) - {hash})
    {
      hide Run;
      hide Looked;
      hide OnlyDeletes;
      hide NoListing;
      hide Tried;
      hide Foreign;
      hide HarmlessFrom;
      NoneDeleted(trace, |trace|, g, {}, {hash});
      NothingListed(trace, g);
      var repeats: nat := *;
      while repeats > 0
        invariant Valid() && old(trace) <= trace && NoListing(trace, |old(trace)|, g) && faults == old(faults)
        invariant MayFollow(own, Did(0, EraseBlob(g, hash, true, true)))
        invariant OnlyDeletes(trace, |old(trace)|, g, {}, {hash})
        invariant g in s.gcs && s.gcs[g] == old(s.gcs[g])
      {
        ghost var before := trace;
        Others(g);
        var lost: bool := *;
        OneErased(before, trace, |old(trace)|, g, hash, lost, true);
        Call(EraseBlob(g, hash, lost, true));
        repeats := repeats - 1;
      }
      ghost var before := trace;
      Others(g);
      var done: bool := *;
      OneErased(before, trace, |old(trace)|, g, hash, done, false);
      Call(EraseBlob(g, hash, done, false));
    }

    /** The deletes of one batch, right after a look at the token. */
    method EraseAll(g: Id, batch: set<Hash>)
      requires Valid() && g in s.gcs && (s.gcs[g].Scanning? || s.gcs[g].Erasing?) && batch <= s.gcs[g].pending
      requires batch != {} ==> MayFollow(own, Batch(batch))
      modifies this
      ensures Valid() && old(trace) <= trace && NoListing(trace, |old(trace)|, g) && faults == old(faults)
      ensures OnlyDeletes(trace, |old(trace)|, g, {}, batch)
      ensures forall h :: h in batch ==> Tried(trace, |old(trace)|, g, h)
      ensures g in s.gcs && s.gcs[g] == old(s.gcs[g]).(pending := old(s.gcs[g].pending) - batch)
    {
      hide Run;
      hide Tried;
      hide Looked;
      var left := batch;
      if left != {} {
        LookedNext(own, Batch(batch));
        own := own + [Batch(batch)];
      }
      while left != {}
        invariant Valid() && old(trace) <= trace && NoListing(trace, |old(trace)|, g) && faults == old(faults)
        invariant left != {} ==> MayFollow(own, Did(0, EraseBlob(g, [], true, true)))
        invariant OnlyDeletes(trace, |old(trace)|, g, {}, batch)
        invariant g in s.gcs && left <= batch
        invariant s.gcs[g] == old(s.gcs[g]).(pending := old(s.gcs[g].pending) - (batch - left))
        invariant forall h :: h in batch && h !in left ==> Tried(trace, |old(trace)|, g, h)
        decreases left
      {
        var hash :| hash in left;
        ghost var before := trace;
        EraseOne(g, hash);
        TriedEarlier(trace, |before|, |old(trace)|, g, hash);
        OnlyMore(before, trace, |old(trace)|, g, {}, batch);
        forall h | h in batch && Tried(before, |old(trace)|, g, h)
          ensures Tried(trace, |old(trace)|, g, h)
        {
          TriedLater(before, trace, |old(trace)|, g, h);
        }
        left := left - {hash};
      }
    }

    /** A batch is due: unless the lock is lost, all of it is tried; a dry run reports it. */
    method Flush(g: Id, dryRun: bool, ghost from: nat) returns (lost: bool)
      requires Valid() && g in s.gcs && s.gcs[g].Scanning? && from <= |trace| && s.gcs[g].pending != {}
      requires Candidates(trace, from, g, s.gcs[g].pending)
      modifies this
      ensures Valid() && old(trace) <= trace
      ensures dryRun ==> HarmlessFrom(trace, |old(trace)|, g)
      ensures faults == if lost then old(faults) + [LostLock] else old(faults)
      ensures lost ==> g !in s.gcs && HarmlessFrom(trace, |old(trace)|, g)
      ensures !lost ==> g in s.gcs && s.gcs[g].Scanning? && Candidates(trace, from, g, s.gcs[g].pending)
      ensures !lost ==> if dryRun then trace == old(trace) else s.gcs[g].pending < old(s.gcs[g].pending)
    {
      ghost var before, pending := trace, s.gcs[g].pending;
      lost := LockLooksLost();
      if lost {
        Stop(g);
        StopLast(before, g);
        return;
      }
      if dryRun {
        NothingHarms(trace, g);
        return;
      }
      hide *;
      var batch := TakeBatch(s.gcs[g].pending);
      BatchMayFollow(own, batch);
      EraseAll(g, batch);
      CandidatesTried(before, trace, from, g, pending, pending - batch);
    }

    /** What happens between two turns of the scan: entries come in, and full batches are deleted. */
    method Entries(g: Id, dryRun: bool, ghost from: nat) returns (lost: bool)
      requires Valid() && g in s.gcs && s.gcs[g].Scanning? && from <= |trace|
      requires Candidates(trace, from, g, s.gcs[g].pending)
      modifies this
      ensures Valid() && old(trace) <= trace
      ensures dryRun ==> HarmlessFrom(trace, |old(trace)|, g)
      ensures faults == if lost then old(faults) + [LostLock] else old(faults)
      ensures lost ==> g !in s.gcs
      ensures !lost ==> g in s.gcs && s.gcs[g].Scanning? && Candidates(trace, from, g, s.gcs[g].pending)
    {
      hide *;
      lost := false;
      NothingHarms(trace, g);
      var entries: nat := *;
      while entries > 0
        invariant Valid() && old(trace) <= trace && g in s.gcs && s.gcs[g].Scanning?
        invariant dryRun ==> HarmlessFrom(trace, |old(trace)|, g)
        invariant Candidates(trace, from, g, s.gcs[g].pending) && faults == old(faults)
      {
        ghost var before := trace;
        ListOne(g, from);
        BothHarmless(before, trace, |old(trace)|, g, dryRun);
        var full: bool := *;
        if full && |s.gcs[g].pending| >= BATCH_SIZE {
          before := trace;
          PendingAtAll(s.gcs[g].pending);
          lost := Flush(g, dryRun, from);
          BothHarmless(before, trace, |old(trace)|, g, dryRun);
          if lost {
            return;
          }
        }
        entries := entries - 1;
      }
    }

    /** What is pending after the listings: batches until none is left, or a report of it. */
    method FlushAll(g: Id, dryRun: bool, ghost from: nat) returns (lost: bool, reported: set<Hash>)
      requires Valid() && g in s.gcs && s.gcs[g].Scanning? && from <= |trace|
      requires Candidates(trace, from, g, s.gcs[g].pending)
      modifies this
      ensures Valid() && old(trace) <= trace && (!lost ==> old(trace) < trace) && g !in s.gcs
      ensures dryRun ==> HarmlessFrom(trace, |old(trace)|, g)
      ensures faults == if lost then old(faults) + [LostLock] else old(faults)
      ensures lost || !dryRun ==> reported == {}
      ensures !lost ==> Candidates(trace, from, g, reported)
    {
      hide *;
      lost, reported := false, {};
      NothingHarms(trace, g);
      while s.gcs[g].pending != {}
        invariant Valid() && old(trace) <= trace && g in s.gcs && s.gcs[g].Scanning?
        invariant dryRun ==> HarmlessFrom(trace, |old(trace)|, g)
        invariant Candidates(trace, from, g, s.gcs[g].pending) && faults == old(faults)
        decreases s.gcs[g].pending
      {
        ghost var before := trace;
        lost := Flush(g, dryRun, from);
        BothHarmless(before, trace, |old(trace)|, g, dryRun);
        if lost {
          return;
        }
        if dryRun {
          reported := s.gcs[g].pending;
          break;
        }
      }
      ghost var before := trace;
      Stop(g);
      StopLast(before, g);
      BothHarmless(before, trace, |old(trace)|, g, dryRun);
      CandidatesTried(before, trace, from, g, reported, reported);
    }

    /**
     * `remote_scan_and_delete`: lists every shard, several at a time, and deletes old unreferenced
     * blobs in batches. Exactly the shards whose LIST fails are in `failed`. For any other,
     * `listings` says from when to when it was listed, and every blob that was an orphan all that
     * time has been tried on success. A dry run deletes nothing and reports all of them instead.
     * Only the loss of the lock ends the scan with an error.
     */
    method ScanAndDelete(g: Id, dryRun: bool)
        returns (r: Result<(), GcError>, reported: set<Hash>, failed: set<int>, ghost listings: map<int, (nat, nat)>)
      requires Valid() && g in s.gcs && s.gcs[g].Scanning? && s.gcs[g].pending == {}
      modifies this
      ensures Valid() && old(trace) <= trace && g !in s.gcs
      ensures dryRun ==> HarmlessFrom(trace, |old(trace)|, g)
      ensures !dryRun ==> reported == {}
      ensures r.Ok? ==> Candidates(trace, |old(trace)|, g, reported)
      ensures old(faults) <= faults
      ensures r.Err? <==> LostLock in faults[|old(faults)|..]
      ensures r.Err? ==> r.error == LockLost
      ensures FailedAre(faults[|old(faults)|..], failed)
      ensures r.Ok? ==> listings.Keys == Shards() - failed
      ensures r.Ok? ==> AllCovered(first, trace, |old(trace)|, g, listings, reported)
    {
      hide *;
      reported, failed, listings := {}, {}, map[];
      ghost var since: map<int, nat> := map[];
      NoCandidates(trace, g);
      NothingHarms(trace, g);
      NoListings(first, trace, |old(trace)|, g);
      var waiting, open, due: set<Hash> := Shards(), {}, {};
      AllWait();
      NoneFailed();
      NoFault(faults);
      while waiting != {} || open != {}
        invariant Valid() && old(trace) <= trace && g in s.gcs && s.gcs[g].Scanning?
        invariant dryRun ==> HarmlessFrom(trace, |old(trace)|, g)
        invariant Candidates(trace, |old(trace)|, g, s.gcs[g].pending)
        invariant Listings(first, trace, |old(trace)|, g, since, listings, due)
        invariant old(faults) <= faults && LostLock !in faults[|old(faults)|..]
        invariant FailedAre(faults[|old(faults)|..], failed)
        invariant since.Keys == open && Parted(waiting, open, listings.Keys, failed)
        decreases waiting, due, open
      {
        ghost var before, wanted := trace, due;
        ghost var newFaults := faults[|old(faults)|..];
        var lost := Entries(g, dryRun, |old(trace)|);
        BothHarmless(before, trace, |old(trace)|, g, dryRun);
        if lost {
          OneMoreFault(old(faults), newFaults, faults, LostLock, failed);
          return Err(LockLost), reported, failed, listings;
        }
        due := due * Orphans(s, g);
        StillDue(g, |old(trace)|, before, since, listings, wanted, due);
        var start: bool := *;
        if waiting != {} && (open == {} || start) {
          PartsAreShards(waiting, open, listings.Keys, failed);
          var shard := AnyShard(waiting);
          Parting(waiting, open, listings.Keys, failed, shard);
          waiting := waiting - {shard};
          var fails := Meets(Unlistable(shard));
          if fails {
            OneMoreFault(old(faults), newFaults, faults, Unlistable(shard), failed);
            failed := failed + {shard};
          } else {
            var all := OrphansOf(s, g, shard);
            ListingStarts(g, |old(trace)|, since, listings, due, shard);
            since := since[shard := |trace|];
            open, due := open + {shard}, due + all;
          }
        } else {
          PartsAreShards(waiting, open, listings.Keys, failed);
          var shard := AnyShard(open);
          Parting(waiting, open, listings.Keys, failed, shard);
          var rest := due * OrphansOf(s, g, shard);
          if rest != {} {
            var hash :| hash in rest;
            OrphansOfMeans(s, g, shard, hash);
            before, wanted := trace, due;
            Deliver(g, hash, |old(trace)|);
            due := due - {hash};
            BothHarmless(before, trace, |old(trace)|, g, true);
            Delivered(g, |old(trace)|, before, since, listings, wanted, hash);
          } else {
            ListingEnds(g, |old(trace)|, since, listings, due, shard);
            ghost var done := listings.Keys;
            listings := listings[shard := (since[shard], |trace|)];
            assert listings.Keys == done + {shard};
            since := since - {shard};
            open := open - {shard};
          }
        }
      }
      assert since == map[];
      AllDone(listings.Keys, failed);
      NoneUnderWay(first, trace, |old(trace)|, g, listings, due);
      ghost var before := trace;
      ghost var newFaults := faults[|old(faults)|..];
      var lost;
      lost, reported := FlushAll(g, dryRun, |old(trace)|);
      BothHarmless(before, trace, |old(trace)|, g, dryRun);
      if lost {
        OneMoreFault(old(faults), newFaults, faults, LostLock, failed);
        return Err(LockLost), reported, failed, listings;
      }
      EndedListings(first, before, trace, |old(trace)|, g, listings, reported);
      r := Ok(());
    }

    lemma StillDue(g: Id, from: nat, before: seq<Step>, since: map<int, nat>, ended: map<int, (nat, nat)>,
                   due: set<Hash>, left: set<Hash>)
      requires Valid() && before <= trace && g in s.gcs && Listings(first, before, from, g, since, ended, due)
      requires left == due * Orphans(s, g)
      ensures Listings(first, trace, from, g, since, ended, left)
    {
      hide Run;
      assert trace[..|trace|] == trace;
      hide Listings;
      ListingsLater(first, before, trace, from, g, since, ended, due, left);
    }

    lemma Delivered(g: Id, from: nat, before: seq<Step>, since: map<int, nat>, ended: map<int, (nat, nat)>,
                    due: set<Hash>, hash: Hash)
      requires Valid() && trace == before + [ListBlob(g, hash)]
      requires Listings(first, before, from, g, since, ended, due)
      ensures Listings(first, trace, from, g, since, ended, due - {hash})
    {
      hide Listings;
      assert trace[|before|] == ListBlob(g, hash);
      ListingsLater(first, before, trace, from, g, since, ended, due, due - {hash});
    }

    lemma ListingStarts(g: Id, from: nat, since: map<int, nat>, ended: map<int, (nat, nat)>, due: set<Hash>, shard: int)
      requires Valid() && from <= |trace|
      requires Listings(first, trace, from, g, since, ended, due)
      ensures Listings(first, trace, from, g, since[shard := |trace|], ended, due + OrphansOf(s, g, shard))
    {
      hide Run;
      assert trace[..|trace|] == trace;
      forall h | Keys.InShard(h, shard) && OrphanAt(first, trace, |trace|, g, h)
        ensures h in OrphansOf(s, g, shard)
      {
      }
      forall h | Throughout(first, trace, |trace|, |trace|, g, h)
        ensures OrphanAt(first, trace, |trace|, g, h)
      {
      }
      hide OrphanAt;
      hide OrphansOf;
      hide Throughout;
    }

    lemma ListingEnds(g: Id, from: nat, since: map<int, nat>, ended: map<int, (nat, nat)>, due: set<Hash>, shard: int)
      requires Valid() && shard in since && Listings(first, trace, from, g, since, ended, due)
      requires due * OrphansOf(s, g, shard) == {}
      ensures Listings(first, trace, from, g, since - {shard}, ended[shard := (since[shard], |trace|)], due)
    {
      hide Run;
      assert trace[..|trace|] == trace;
      forall h | Keys.InShard(h, shard) && Throughout(first, trace, since[shard], |trace|, g, h)
        ensures ListedIn(trace, since[shard], |trace|, g, h)
      {
        assert OrphanAt(first, trace, |trace|, g, h);
        assert h !in due * OrphansOf(s, g, shard);
      }
    }

    /** One entry of the blob LIST, a candidate or not. */
    method ListOne(g: Id, ghost from: nat)
      requires Valid() && g in s.gcs && s.gcs[g].Scanning? && from <= |trace|
      requires Candidates(trace, from, g, s.gcs[g].pending)
      modifies this
      ensures Valid() && old(trace) <= trace && HarmlessFrom(trace, |old(trace)|, g)
      ensures faults == old(faults)
      ensures g in s.gcs && s.gcs[g].Scanning? && Candidates(trace, from, g, s.gcs[g].pending)
    {
      hide *;
      ghost var before, pending := trace, s.gcs[g].pending;
      Others(g);
      CandidatesTried(before, trace, from, g, pending, pending);
      var hash: Hash := *;
      if Orphan(s, g, hash) {
        ghost var mid := trace;
        Deliver(g, hash, from);
        BothHarmless(mid, trace, |before|, g, true);
      }
    }

    /** An orphan is listed. */
    method Deliver(g: Id, hash: Hash, ghost from: nat)
      requires Valid() && g in s.gcs && s.gcs[g].Scanning? && from <= |trace|
      requires Orphan(s, g, hash) && Candidates(trace, from, g, s.gcs[g].pending)
      modifies this
      ensures Valid() && trace == old(trace) + [ListBlob(g, hash)] && HarmlessFrom(trace, |old(trace)|, g)
      ensures faults == old(faults)
      ensures g in s.gcs && s.gcs[g].Scanning? && Candidates(trace, from, g, s.gcs[g].pending)
    {
      hide Run;
      hide Tried;
      hide Candidates;
      hide NoListing;
      hide ApplyListBlob;
      ListedPhase(s, g, hash);
      OneCandidate(trace, from, g, hash, s.gcs[g].pending);
      Call(ListBlob(g, hash));
    }

    method Stop(g: Id)
      requires Valid() && g in s.gcs
      modifies this
      ensures Valid() && trace == old(trace) + [StopGc(g)] && g !in s.gcs && faults == old(faults)
    {
      Call(StopGc(g));
    }

    /** Lists the manifests and reads all of them. */
    method ReadAllManifests(g: Id, live: bool) returns (ok: bool)
      requires Valid() && g !in s.gcs
      modifies this
      ensures Valid() && old(trace) <= trace && HarmlessFrom(trace, |old(trace)|, g)
      ensures !ok ==> g !in s.gcs
      ensures ok ==> g in s.gcs && s.gcs[g].Planning? && s.gcs[g].kind == (if live then Live else All)
                     && s.gcs[g].unread == {} && AllRead(first, trace, |old(trace)|, {}, s.gcs[g].read)
      ensures old(faults) <= faults && (ok ==> faults == old(faults))
      ensures !ok ==> Cause(first, trace, |old(trace)|, g, faults[|old(faults)|..], Stopped)
    {
      hide Run;
      hide Vanished;
      hide Looked;
      hide WasThere;
      hide AllRead;
      Others(g);
      var unlisted := Meets(NoList);
      if unlisted {
        NewFault(old(faults), NoList);
        return false;
      }
      ghost var before := trace;
      ListedNow({});
      Call(StartGc(g, live));
      ghost var started := trace;
      ok := ReadAll(g);
      if ok {
        ReadIsAll(first, before, trace, |started|, |old(trace)|, {}, s.gcs[g].read);
      } else {
        ReadCause(old(faults), faults, first, trace, |started|, |old(trace)|, g);
      }
    }

    lemma ListedNow(but: set<Name>)
      requires Valid()
      ensures ListedAt(first, trace, |trace|, but, s.manifests.Keys - but)
      ensures s.manifests.Keys - {} == s.manifests.Keys
    {
      assert trace[..|trace|] == trace;
    }

    /**
     * `gc_all_blobs`: on success every candidate it came across has been tried, or is reported by
     * a dry run, among them every blob that was an orphan while its shard was listed. It fails
     * only with a cause, and without a fault every shard is listed.
     */
    method GcAllBlobs(g: Id, dryRun: bool, grace: int)
        returns (r: Result<(), GcError>, reported: set<Hash>, failed: set<int>,
                 ghost read: map<Name, Manifest>, ghost at: nat, ghost listings: map<int, (nat, nat)>)
      requires Valid() && g !in s.gcs
      modifies this
      ensures Valid() && old(trace) <= trace && g !in s.gcs
      ensures dryRun ==> HarmlessFrom(trace, |old(trace)|, g)
      ensures old(faults) <= faults
      ensures r.Err? ==> Cause(first, trace, |old(trace)|, g, faults[|old(faults)|..], r.error)
      ensures r.Ok? ==> FailedAre(faults[|old(faults)|..], failed) && LostLock !in faults[|old(faults)|..]
      ensures r.Ok? ==> |old(trace)| <= at <= |trace| && AllRead(first, trace, |old(trace)|, {}, read)
                        && Scans(first, trace, at, g, read, grace)
                        && Candidates(trace, at, g, reported) && (!dryRun ==> reported == {})
                        && listings.Keys == Shards() - failed
                        && AllCovered(first, trace, at, g, listings, reported)
    {
      hide Run;
      hide Union;
      hide Tried;
      hide Candidates;
      hide AllCovered;
      hide Shards;
      hide FailedAre;
      hide Vanished;
      hide Looked;
      hide WasThere;
      hide AllRead;
      hide Scans;
      read, at, reported, failed, listings := map[], 0, {}, {}, map[];
      var ok := ReadAllManifests(g, false);
      if !ok {
        return Err(Stopped), reported, failed, read, at, listings;
      }
      read := s.gcs[g].read;
      ghost var before := trace;
      PlanAll(g, grace);
      AllReadLater(first, before, trace, |old(trace)|, {}, read);
      at := |trace|;
      before := trace;
      r, reported, failed, listings := ScanAndDelete(g, dryRun);
      AllReadLater(first, before, trace, |old(trace)|, {}, read);
      ScansLater(first, before, trace, at, g, read, grace);
    }

    /** The plan of `gc_all_blobs`. */
    method PlanAll(g: Id, grace: int)
      requires Valid() && g in s.gcs && s.gcs[g].Planning? && s.gcs[g].kind == All && s.gcs[g].unread == {}
      modifies this
      ensures Valid() && old(trace) <= trace && HarmlessFrom(trace, |old(trace)|, g) && faults == old(faults)
      ensures g in s.gcs && s.gcs[g].Scanning? && s.gcs[g].pending == {}
      ensures Scans(first, trace, |trace|, g, old(s.gcs[g].read), grace)
    {
      hide Run;
      hide Looked;
      ghost var read := s.gcs[g].read;
      Others(g);
      Call(Plan(g, {}, grace));
      assert trace[..|trace|] == trace;
    }

    /**
     * `gc_snapshot`: on success the manifest's delete has been confirmed after the plan was
     * made, and the delete of every blob the plan found exclusive has been tried. It fails only
     * with a cause, and deletes nothing else.
     */
    method GcSnapshot(g: Id, name: Name, dryRun: bool)
        returns (r: Result<(), GcError>, ghost parts: Manifest, ghost read: map<Name, Manifest>, ghost at: nat,
                 ghost plan: Gc)
      requires Valid() && g !in s.gcs
      modifies this
      ensures Valid() && old(trace) <= trace && g !in s.gcs
      ensures dryRun ==> HarmlessFrom(trace, |old(trace)|, g)
      ensures old(faults) <= faults && (r.Ok? ==> faults == old(faults))
      ensures r.Err? ==> Cause(first, trace, |old(trace)|, g, faults[|old(faults)|..], r.error)
                         || (r.error == Stopped && WasGone(first, trace, |old(trace)|, name))
                         || (r.error == Stopped && Unconfirmed(trace, |old(trace)|, g))
      ensures OnlyDeletes(trace, |old(trace)|, g, {name}, if plan.Dropping? then plan.exclusive else {})
      ensures r.Ok? ==>
                && WasThere(first, trace, |old(trace)|, name, parts)
                && AllRead(first, trace, |old(trace)|, {name}, read)
                && |old(trace)| <= at <= |trace| && PhaseAt(first, trace, at, g, plan)
                && plan.Dropping? && plan.names == {name} && DueWith(plan.exclusive, parts, read)
      ensures r.Ok? && !dryRun ==>
                && DropManifest(g, name, Dropped) in trace[at..]
                && forall h :: h in plan.exclusive ==> Tried(trace, at, g, h)
    {
      hide *;
      parts, read, at, plan := {}, map[], 0, Erasing({});
      var ok;
      ok, parts, read := PlanSnapshot(g, name);
      if !ok {
        HarmlessDeletes(trace, |old(trace)|, g, {name}, {});
        return Err(Stopped), parts, read, at, plan;
      }
      at, plan := |trace|, s.gcs[g];
      ghost var before := trace;
      PhaseNow(g);
      HarmlessDeletes(trace, |old(trace)|, g, {name}, plan.exclusive);
      NoFault(old(faults));
      if dryRun {
        Stop(g);
        StopLast(before, g);
        DryStop(old(trace), before, g);
        HarmlessDeletes(trace, |old(trace)|, g, {name}, plan.exclusive);
        PhaseLater(first, before, trace, at, g, plan);
        ThereLater(first, before, trace, |old(trace)|, |old(trace)|, name, parts);
        AllReadLater(first, before, trace, |old(trace)|, {name}, read);
        return Ok(()), parts, read, at, plan;
      }
      r := DropAndErase(g, name, at, plan);
      ThereLater(first, before, trace, |old(trace)|, |old(trace)|, name, parts);
      AllReadLater(first, before, trace, |old(trace)|, {name}, read);
      OnlyMore(before, trace, |old(trace)|, g, {name}, plan.exclusive);
      if r.Err? {
        DropCause(first, trace, |before|, |old(trace)|, g, faults[|old(faults)|..], r.error);
      }
    }

    lemma PhaseNow(g: Id)
      requires Valid() && g in s.gcs
      ensures PhaseAt(first, trace, |trace|, g, s.gcs[g])
    {
      assert trace[..|trace|] == trace;
    }

    /** Reads the snapshot and all others, and plans what to delete. */
    method PlanSnapshot(g: Id, name: Name) returns (ok: bool, ghost parts: Manifest, ghost read: map<Name, Manifest>)
      requires Valid() && g !in s.gcs
      modifies this
      ensures Valid() && old(trace) <= trace && HarmlessFrom(trace, |old(trace)|, g)
      ensures !ok ==> g !in s.gcs
      ensures ok ==>
                && g in s.gcs && s.gcs[g].Dropping? && s.gcs[g].names == {name} && !s.gcs[g].tolerant
                && WasThere(first, trace, |old(trace)|, name, parts)
                && AllRead(first, trace, |old(trace)|, {name}, read)
                && DueWith(s.gcs[g].exclusive, parts, read)
      ensures old(faults) <= faults && (ok ==> faults == old(faults))
      ensures !ok ==> Cause(first, trace, |old(trace)|, g, faults[|old(faults)|..], Stopped)
                      || WasGone(first, trace, |old(trace)|, name)
    {
      hide *;
      ghost var listed;
      read := map[];
      ok, parts, listed := ReadSnapshot(g, name);
      if !ok {
        return;
      }
      ghost var started := trace;
      ok := ReadAll(g);
      if !ok {
        ReadCause(old(faults), faults, first, trace, |started|, |old(trace)|, g);
        BothHarmless(started, trace, |old(trace)|, g, true);
        return;
      }
      read := s.gcs[g].read;
      ReadIsAll(first, listed, trace, |started|, |old(trace)|, {name}, read);
      ghost var mid := trace;
      PlanOne(g, name, parts, read);
      ThereLater(first, started, trace, |old(trace)|, |old(trace)|, name, parts);
      AllReadLater(first, mid, trace, |old(trace)|, {name}, read);
      BothHarmless(started, mid, |old(trace)|, g, true);
      BothHarmless(mid, trace, |old(trace)|, g, true);
    }

    method PlanOne(g: Id, name: Name, ghost parts: Manifest, ghost read: map<Name, Manifest>)
      requires Valid() && g in s.gcs && s.gcs[g].Planning? && s.gcs[g].kind == Remove(name, parts)
      requires s.gcs[g].unread == {} && s.gcs[g].read == read
      modifies this
      ensures Valid() && old(trace) <= trace && HarmlessFrom(trace, |old(trace)|, g) && faults == old(faults)
      ensures g in s.gcs && s.gcs[g].Dropping? && s.gcs[g].names == {name} && !s.gcs[g].tolerant
      ensures DueWith(s.gcs[g].exclusive, parts, read)
    {
      hide Run;
      hide Looked;
      Call(Plan(g, {}, 0));
    }

    /** Reads the snapshot and lists all others; `listed` are the steps up to the LIST. */
    method ReadSnapshot(g: Id, name: Name) returns (ok: bool, ghost parts: Manifest, ghost listed: seq<Step>)
      requires Valid() && g !in s.gcs
      modifies this
      ensures Valid() && old(trace) <= trace && HarmlessFrom(trace, |old(trace)|, g)
      ensures !ok ==> g !in s.gcs
      ensures ok ==>
                && g in s.gcs && s.gcs[g].Planning? && s.gcs[g].kind == Remove(name, parts) && s.gcs[g].read == map[]
                && WasThere(first, trace, |old(trace)|, name, parts)
                && old(trace) <= listed <= trace && ListedAt(first, listed, |listed|, {name}, s.gcs[g].unread)
      ensures old(faults) <= faults && (ok ==> faults == old(faults))
      ensures !ok ==> Cause(first, trace, |old(trace)|, g, faults[|old(faults)|..], Stopped)
                      || WasGone(first, trace, |old(trace)|, name)
    {
      hide Run;
      hide Vanished;
      hide WasGone;
      hide WasThere;
      hide Looked;
      hide ListedAt;
      parts, listed := {}, [];
      Others(g);
      var unreadable := Meets(Unreadable(name));
      if unreadable {
        NewFault(old(faults), Unreadable(name));
        return false, parts, listed;
      }
      if name !in s.manifests {
        GoneNow(name, |old(trace)|);
        return false, parts, listed;
      }
      parts := s.manifests[name];
      ThereNow(name, |old(trace)|);
      ghost var before := trace;
      Call(ReadTarget(g, name));
      Others(g);
      var unlisted := Meets(NoList);
      if unlisted {
        NewFault(old(faults), NoList);
        Call(StopGc(g));
        return false, parts, listed;
      }
      listed := trace;
      ListedNow({name});
      Call(ListOthers(g));
      ThereLater(first, before, trace, |old(trace)|, |old(trace)|, name, parts);
      ok := true;
    }

    lemma ThereNow(name: Name, from: nat)
      requires Valid() && name in s.manifests && from <= |trace|
      ensures WasThere(first, trace, from, name, s.manifests[name])
    {
      assert trace[..|trace|] == trace;
      assert ManifestAt(first, trace, |trace|, name, s.manifests[name]);
    }

    lemma GoneNow(name: Name, from: nat)
      requires Valid() && name !in s.manifests && from <= |trace|
      ensures WasGone(first, trace, from, name)
    {
      assert trace[..|trace|] == trace;
      assert GoneAt(first, trace, |trace|, name);
    }

    /** The destructive part of `gc_snapshot`. */
    method DropAndErase(g: Id, name: Name, ghost at: nat, ghost plan: Gc) returns (r: Result<(), GcError>)
      requires Valid() && g in s.gcs && s.gcs[g] == plan && plan.Dropping? && plan.names == {name} && !plan.tolerant
      requires at == |trace| && PhaseAt(first, trace, at, g, plan)
      modifies this
      ensures Valid() && old(trace) <= trace && g !in s.gcs && PhaseAt(first, trace, at, g, plan)
      ensures old(faults) <= faults && (r.Ok? ==> faults == old(faults))
      ensures r.Err? ==> (r.error == LockLost && faults == old(faults) + [LostLock])
                         || (r.error == Stopped && faults == old(faults) && Unconfirmed(trace, at, g))
      ensures OnlyDeletes(trace, at, g, {name}, plan.exclusive)
      ensures r.Ok? ==> DropManifest(g, name, Dropped) in trace[at..]
      ensures r.Ok? ==> forall h :: h in plan.exclusive ==> Tried(trace, at, g, h)
    {
      hide Run;
      hide Tried;
      hide PhaseAt;
      hide Looked;
      ghost var before := trace;
      var lost := LockLooksLost();
      if lost {
        Stop(g);
        PhaseLater(first, before, trace, at, g, plan);
        return Err(LockLost);
      }
      Others(g);
      var outcome: Drop := *;
      Call(DropManifest(g, name, outcome));
      ghost var dropped := |trace| - 1;
      assert trace[dropped] == DropManifest(g, name, outcome);
      if !outcome.Dropped? {
        PhaseLater(first, before, trace, at, g, plan);
        return Err(Stopped);
      }
      ghost var mid := trace;
      r := EraseExclusive(g);
      PhaseLater(first, before, trace, at, g, plan);
      OnlyMore(mid, trace, at, g, {name}, plan.exclusive);
      assert trace[at..][dropped - at] == DropManifest(g, name, Dropped);
      forall h | h in plan.exclusive && r.Ok?
        ensures Tried(trace, at, g, h)
      {
        TriedEarlier(trace, dropped + 1, at, g, h);
      }
    }

    /**
     * `prune_old_live_snapshots`: of the manifests it has read, the live ones that retention does
     * not keep are pruned, and on success the delete of each of them and of every blob only they
     * named has been tried; nothing else is deleted. It fails only with a cause. `stamp` gives the
     * timestamps in the manifests it reads.
     */
    method PruneOldLive(g: Id, dryRun: bool, p: Retention.Policy, now: int, stamp: Name -> int)
        returns (r: Result<(), GcError>, ghost at: nat, ghost read: map<Name, Manifest>, ghost q: seq<Retention.Snap>)
      requires Valid() && g !in s.gcs
      modifies this
      ensures Valid() && old(trace) <= trace && g !in s.gcs
      ensures old(faults) <= faults && (r.Ok? ==> faults == old(faults))
      ensures r.Err? ==> Cause(first, trace, |old(trace)|, g, faults[|old(faults)|..], r.error)
      ensures r.Ok? ==>
                && |old(trace)| <= at <= |trace| && HasRead(first, trace, at, g, read)
                && AllRead(first, trace, |old(trace)|, {}, read)
                && GcLive.ListsNames(q, GcLive.LiveOf(read.Keys), stamp)
      ensures var prune := Retention.NotKept(p, now, q);
              && (forall n :: n in prune ==> n in read && |n| >= 5 && n[..5] == [0x6C, 0x69, 0x76, 0x65, 0x5F])
              && OnlyDeletes(trace, |old(trace)|, g, prune, Exclusive(read, prune))
              && (dryRun || prune == {} ==> HarmlessFrom(trace, |old(trace)|, g))
              && (r.Ok? && !dryRun && prune != {} ==>
                  && PhaseAt(first, trace, at + 1, g, Dropping(prune, Exclusive(read, prune), true))
                  && (forall n :: n in prune ==> DropTried(trace, at, g, n))
                  && forall h :: h in Exclusive(read, prune) ==> Tried(trace, at, g, h))
    {
      hide *;
      at, read, q := 0, map[], [];
      NoneKept(p, now);
      var ok := ReadAllManifests(g, true);
      if !ok {
        HarmlessDeletes(trace, |old(trace)|, g, {}, Exclusive(read, {}));
        return Err(Stopped), at, read, q;
      }
      at, read := |trace|, s.gcs[g].read;
      ReadNow(g);
      ghost var before := trace;
      var names := s.gcs[g].read.Keys;
      var prune;
      q, prune := GcLive.ChoosePrune(names, stamp, p, now);
      HarmlessDeletes(trace, |old(trace)|, g, prune, Exclusive(read, prune));
      if prune == {} {
        Stop(g);
        DryStop(old(trace), before, g);
        HarmlessDeletes(trace, |old(trace)|, g, prune, Exclusive(read, prune));
        ReadsLater(first, before, trace, |old(trace)|, at, g, read);
        return Ok(()), at, read, q;
      }
      PlanLive(g, prune, read);
      ReadsLater(first, before, trace, |old(trace)|, at, g, read);
      ghost var planned := trace;
      PlanHarmless(old(trace), before, g, prune);
      HarmlessDeletes(trace, |old(trace)|, g, prune, Exclusive(read, prune));
      if dryRun {
        Stop(g);
        DryStop(old(trace), planned, g);
        HarmlessDeletes(trace, |old(trace)|, g, prune, Exclusive(read, prune));
        ReadsLater(first, planned, trace, |old(trace)|, at, g, read);
        return Ok(()), at, read, q;
      }
      PhaseNow(g);
      r := DropAllAndErase(g, at + 1, Dropping(prune, Exclusive(read, prune), true));
      ReadsLater(first, planned, trace, |old(trace)|, at, g, read);
      EarlierToo(trace, at + 1, at, g, prune, Exclusive(read, prune), r.Ok?);
      OnlyMore(planned, trace, |old(trace)|, g, prune, Exclusive(read, prune));
      if r.Err? {
        LostCause(old(faults), faults, first, trace, |old(trace)|, g);
      }
    }

    method PlanLive(g: Id, prune: set<Name>, ghost read: map<Name, Manifest>)
      requires Valid() && g in s.gcs && s.gcs[g].Planning? && s.gcs[g].kind == Live && s.gcs[g].unread == {}
      requires s.gcs[g].read == read && prune <= read.Keys
      modifies this
      ensures Valid() && trace == old(trace) + [Plan(g, prune, 0)] && faults == old(faults)
      ensures g in s.gcs && s.gcs[g] == Dropping(prune, Exclusive(read, prune), true)
    {
      hide Run;
      hide Union;
      hide Only;
      hide Looked;
      Call(Plan(g, prune, 0));
    }

    lemma ReadNow(g: Id)
      requires Valid() && g in s.gcs && s.gcs[g].Planning? && s.gcs[g].kind == Live && s.gcs[g].unread == {}
      ensures HasRead(first, trace, |trace|, g, s.gcs[g].read)
    {
      assert trace[..|trace|] == trace;
    }

    /** The destructive part of `prune_old_live_snapshots`: goes on after failed deletes. */
    method DropAllAndErase(g: Id, ghost at: nat, ghost plan: Gc) returns (r: Result<(), GcError>)
      requires Valid() && g in s.gcs && s.gcs[g] == plan && plan.Dropping? && plan.tolerant
      requires at == |trace| && PhaseAt(first, trace, at, g, plan)
      modifies this
      ensures Valid() && old(trace) <= trace && g !in s.gcs && PhaseAt(first, trace, at, g, plan)
      ensures faults == if r.Err? then old(faults) + [LostLock] else old(faults)
      ensures r.Err? ==> r.error == LockLost
      ensures OnlyDeletes(trace, at, g, plan.names, plan.exclusive)
      ensures r.Ok? ==> forall n :: n in plan.names ==> DropTried(trace, at, g, n)
      ensures r.Ok? ==> forall h :: h in plan.exclusive ==> Tried(trace, at, g, h)
    {
      hide Run;
      hide Tried;
      hide DropTried;
      hide PhaseAt;
      hide Looked;
      hide OnlyDeletes;
      ghost var before := trace;
      NoneDeleted(trace, at, g, plan.names, plan.exclusive);
      while s.gcs[g].names != {}
        invariant Valid() && before <= trace && g in s.gcs && faults == old(faults)
        invariant s.gcs[g].Dropping? && s.gcs[g] == plan.(names := s.gcs[g].names) && s.gcs[g].names <= plan.names
        invariant OnlyDeletes(trace, at, g, plan.names, plan.exclusive)
        invariant forall n :: n in plan.names && n !in s.gcs[g].names ==> DropTried(trace, at, g, n)
        decreases s.gcs[g].names
      {
        ghost var mid := trace;
        var lost := LockLooksLost();
        if lost {
          Stop(g);
          StopOnly(mid, at, g, plan.names, plan.exclusive);
          PhaseLater(first, before, trace, at, g, plan);
          return Err(LockLost);
        }
        var name := DropOne(g);
        OnlyWider(trace, |mid|, g, {name}, {}, plan.names, plan.exclusive);
        OnlyMore(mid, trace, at, g, plan.names, plan.exclusive);
        DropsLater(mid, trace, at, g, plan.names, name);
      }
      ghost var mid := trace;
      r := EraseExclusive(g);
      PhaseLater(first, before, trace, at, g, plan);
      OnlyWider(trace, |mid|, g, {}, plan.exclusive, plan.names, plan.exclusive);
      OnlyMore(mid, trace, at, g, plan.names, plan.exclusive);
      DropsStay(mid, trace, at, g, plan.names);
      forall h | h in plan.exclusive && r.Ok?
        ensures Tried(trace, at, g, h)
      {
        TriedEarlier(trace, |mid|, at, g, h);
      }
    }

    /** The delete of one manifest, its failure ignored. */
    method DropOne(g: Id) returns (name: Name)
      requires Valid() && g in s.gcs && s.gcs[g].Dropping? && s.gcs[g].tolerant && s.gcs[g].names != {}
      requires own != [] && own[|own| - 1] == Look(false)
      modifies this
      ensures Valid() && old(trace) <= trace && faults == old(faults)
      ensures name in old(s.gcs[g].names) && OnlyDeletes(trace, |old(trace)|, g, {name}, {})
      ensures g in s.gcs && s.gcs[g] == old(s.gcs[g]).(names := old(s.gcs[g].names) - {name})
      ensures |trace| > |old(trace)| && trace[|trace| - 1].DropManifest?
              && trace[|trace| - 1].g == g && trace[|trace| - 1].name == name
    {
      hide Run;
      hide Looked;
      Others(g);
      name :| name in s.gcs[g].names;
      var outcome: Drop := *;
      Call(DropManifest(g, name, outcome));
    }

    /** The blobs only the deleted manifests named. */
    method EraseExclusive(g: Id) returns (r: Result<(), GcError>)
      requires Valid() && g in s.gcs && s.gcs[g].Dropping? && s.gcs[g].names == {}
      modifies this
      ensures Valid() && old(trace) <= trace && g !in s.gcs
      ensures faults == if r.Err? then old(faults) + [LostLock] else old(faults)
      ensures r.Err? ==> r.error == LockLost
      ensures OnlyDeletes(trace, |old(trace)|, g, {}, old(s.gcs[g].exclusive))
      ensures r.Ok? ==> forall h :: h in old(s.gcs[g].exclusive) ==> Tried(trace, |old(trace)|, g, h)
    {
      hide Run;
      hide Tried;
      hide Looked;
      ghost var before, exclusive := trace, s.gcs[g].exclusive;
      Call(StartErasing(g));
      if s.gcs[g].pending != {} {
        var lost := LockLooksLost();
        if lost {
          Stop(g);
          return Err(LockLost);
        }
      }
      ghost var started := trace;
      EraseAll(g, s.gcs[g].pending);
      ghost var mid := trace;
      Stop(g);
      forall h | h in exclusive
        ensures Tried(trace, |before|, g, h)
      {
        TriedEarlier(mid, |started|, |before|, g, h);
        TriedLater(mid, trace, |before|, g, h);
      }
      r := Ok(());
    }
  }

  lemma DropsLater(before: seq<Step>, steps: seq<Step>, at: nat, g: Id, names: set<Name>, name: Name)
    requires before <= steps && at <= |before| < |steps|
    requires var last := steps[|steps| - 1]; last.DropManifest? && last.g == g && last.name == name
    ensures DropTried(steps, at, g, name)
    ensures forall n :: n in names && DropTried(before, at, g, n) ==> DropTried(steps, at, g, n)
  {
    DropsStay(before, steps, at, g, names);
  }

  lemma DropsStay(before: seq<Step>, steps: seq<Step>, at: nat, g: Id, names: set<Name>)
    requires before <= steps
    ensures forall n :: n in names && DropTried(before, at, g, n) ==> DropTried(steps, at, g, n)
  {
    forall n | n in names && DropTried(before, at, g, n)
      ensures DropTried(steps, at, g, n)
    {
      var k :| at <= k < |before| && before[k].DropManifest? && before[k].g == g && before[k].name == n;
      assert steps[k] == before[k];
    }
  }

  lemma ListedPhase(s: State, g: Id, hash: Hash)
    requires g in s.gcs && s.gcs[g].Scanning? && Apply(s, ListBlob(g, hash)).Some?
    ensures var t := Apply(s, ListBlob(g, hash)).value;
            g in t.gcs && t.gcs[g].Scanning? && t.gcs[g].pending == s.gcs[g].pending + {hash}
  {
  }

  /**
   * When no LIST has failed, `gc_all_blobs` has tried, or reported, every blob of a listed shard
   * that was an orphan from its plan to its end.
   */
  lemma EveryOrphanTried(first: State, steps: seq<Step>, from: nat, g: Id, listings: map<int, (nat, nat)>,
                         reported: set<Hash>, faults: seq<Fault>, failed: set<int>, hash: Hash)
    requires AllCovered(first, steps, from, g, listings, reported) && listings.Keys == Shards() - failed
    requires FailedAre(faults, failed) && forall k :: Unlistable(k) !in faults
    requires |hash| >= 2 && Keys.LowerDigit(hash[0]) && Keys.LowerDigit(hash[1])
    requires forall i :: from <= i < |steps| ==> OrphanAt(first, steps, i, g, hash)
    ensures hash in reported || Tried(steps, from, g, hash)
  {
    Keys.ScannedExactly(hash);
    var k :| Keys.InShard(hash, k);
    assert IsShard(k) && k !in failed;
    var (a, b) := listings[k];
    hide OrphanAt;
    assert Covered(first, steps, a, b, g, k, reported) && Throughout(first, steps, a, b, g, hash);
    if hash !in reported {
      TriedEarlier(steps, a, from, g, hash);
    }
  }

  /** A manifest goes by its delete alone. */
  lemma {:induction false} ManifestStays(s: State, steps: seq<Step>, name: Name)
    requires Run(s, steps).Some? && name in s.manifests
    requires forall k :: 0 <= k < |steps| && steps[k].DropManifest? ==> steps[k].name != name
    ensures name in Run(s, steps).value.manifests && Run(s, steps).value.manifests[name] == s.manifests[name]
  {
    if steps != [] {
      ManifestStays(s, steps[..|steps| - 1], name);
      StepKeeps(Run(s, steps[..|steps| - 1]).value, steps[|steps| - 1], name);
    }
  }

  lemma StepKeeps(s: State, step: Step, name: Name)
    requires Apply(s, step).Some? && name in s.manifests && (step.DropManifest? ==> step.name != name)
    ensures name in Apply(s, step).value.manifests && Apply(s, step).value.manifests[name] == s.manifests[name]
  {
  }

  /** What a command may not delete, it leaves: such a manifest stays unless another one deletes it. */
  lemma OthersStay(first: State, steps: seq<Step>, from: nat, g: Id, names: set<Name>, hashes: set<Hash>, name: Name)
    requires from <= |steps| && Run(first, steps[..from]).Some? && Run(first, steps).Some?
    requires OnlyDeletes(steps, from, g, names, hashes) && name !in names
    requires name in Run(first, steps[..from]).value.manifests
    requires forall k :: from <= k < |steps| && steps[k].DropManifest? && steps[k].name == name ==> steps[k].g == g
    ensures name in Run(first, steps).value.manifests
  {
    assert steps[..from] + steps[from..] == steps;
    RunConcat(first, steps[..from], steps[from..]);
    forall k | 0 <= k < |steps[from..]| && steps[from..][k].DropManifest?
      ensures steps[from..][k].name != name
    {
      assert steps[from..][k] == steps[from + k];
    }
    ManifestStays(Run(first, steps[..from]).value, steps[from..], name);
  }

  /** Whatever the commands and their surroundings have done: quiet surroundings keep every snapshot. */
  lemma CommandsAreSafe(b: Bucket)
    requires b.Valid() && Complete(b.first) && QuietRun(b.first, b.trace)
    ensures Complete(b.s)
  {
    GcKeepsSnapshots(b.first, b.trace);
  }
}

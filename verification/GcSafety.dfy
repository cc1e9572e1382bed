/**
 * Any interleaving of GC runs keeps every surviving snapshot complete, as long as no
 * backup commits and `gc-live` passes over no failed delete of a manifest whose blobs it
 * is about to delete; and what such a failure does.
 */
module GcSafety {
  import opened Wrappers
  import opened Bytes
  import opened GcStore
  import Keys

  /** A failed delete that `gc-live` passes over although it is to delete blobs of the manifest. */
  predicate Passes(s: State, step: Step) {
    && step.DropManifest? && step.outcome.NotDropped?
    && step.g in s.gcs && s.gcs[step.g].Dropping? && s.gcs[step.g].tolerant
    && step.name in s.manifests && !(s.manifests[step.name] !! s.gcs[step.g].exclusive)
  }

  /** No commit, and no such failure. */
  predicate Quiet(s: State, step: Step) { !step.Commit? && !Passes(s, step) }

  predicate QuietRun(s: State, steps: seq<Step>)
    requires Run(s, steps).Some?
  {
    forall k :: 0 <= k < |steps| ==> Run(s, steps[..k]).Some? && Quiet(Run(s, steps[..k]).value, steps[k])
  }

  /** What a GC run in phase `p` may rely on for one manifest that is still present. */
  predicate Spares(p: Gc, n: Name, m: Manifest) {
    match p
    case Targeted(_, _) => true
    case Planning(kind, _, unread, read) =>
      n in unread || (n in read && read[n] == m) || (kind.Remove? && n == kind.target)
    case Scanning(referenced, _, _, pending) => m <= referenced && m !! pending
    case Dropping(names, exclusive, _) => n in names || m !! exclusive
    case Erasing(pending) => m !! pending
  }

  predicate Safe(s: State) {
    && Complete(s)
    && forall g, n :: g in s.gcs && n in s.manifests ==> Spares(s.gcs[g], n, s.manifests[n])
  }

  lemma PlanSpares(s: State, g: Id, prune: set<Name>, grace: int)
    requires Safe(s) && g in s.gcs && ApplyPlan(s, g, prune, grace).Some?
    ensures Safe(ApplyPlan(s, g, prune, grace).value)
  {
    var t := ApplyPlan(s, g, prune, grace).value;
    forall n | n in t.manifests
      ensures Spares(t.gcs[g], n, t.manifests[n])
    {
      assert Spares(s.gcs[g], n, s.manifests[n]);
      var read := s.gcs[g].read;
      if n in read {
        InUnion(read, n);
        if n !in prune {
          InUnion(read - prune, n);
        }
      }
    }
  }

  lemma InUnion(ms: map<Name, Manifest>, n: Name)
    requires n in ms
    ensures ms[n] <= Union(ms)
  {
  }

  lemma ListSpares(s: State, g: Id, hash: Hash)
    requires Safe(s) && g in s.gcs && ApplyListBlob(s, g, hash).Some?
    ensures Safe(ApplyListBlob(s, g, hash).value)
  {
    hide Keys.Selected;
    SelectedIsSpared(hash, s.gcs[g].referenced);
    assert forall n :: n in s.manifests ==> Spares(s.gcs[g], n, s.manifests[n]);
  }

  lemma SelectedIsSpared(hash: Hash, referenced: set<Hash>)
    requires Keys.Selected(hash, referenced)
    ensures hash !in referenced
  {
    Keys.SelectedIsUnreferenced(Keys.BlobRemoteKey(hash), referenced);
  }

  lemma EraseSpares(s: State, g: Id, hash: Hash, effect: bool, again: bool)
    requires Safe(s) && g in s.gcs && ApplyErase(s, g, hash, effect, again).Some?
    ensures Safe(ApplyErase(s, g, hash, effect, again).value)
  {
    assert forall n :: n in s.manifests ==> Spares(s.gcs[g], n, s.manifests[n]);
  }

  lemma DropSpares(s: State, g: Id, name: Name, outcome: Drop)
    requires Safe(s) && g in s.gcs && ApplyDrop(s, g, name, outcome).Some?
    requires !Passes(s, DropManifest(g, name, outcome))
    ensures Safe(ApplyDrop(s, g, name, outcome).value)
  {
    assert forall n :: n in s.manifests ==> Spares(s.gcs[g], n, s.manifests[n]);
  }

  lemma SafeStep(s: State, step: Step)
    requires Safe(s) && Apply(s, step).Some? && Quiet(s, step)
    ensures Safe(Apply(s, step).value)
  {
    hide ApplyPlan;
    hide ApplyListBlob;
    hide ApplyErase;
    hide ApplyDrop;
    match step
    case Plan(g, prune, grace) => PlanSpares(s, g, prune, grace);
    case ListBlob(g, hash) => ListSpares(s, g, hash);
    case EraseBlob(g, hash, effect, again) => EraseSpares(s, g, hash, effect, again);
    case DropManifest(g, name, outcome) =>
      DroppingOnly(s, g, name, outcome);
      DropSpares(s, g, name, outcome);
    case _ =>
  }

  lemma DroppingOnly(s: State, g: Id, name: Name, outcome: Drop)
    requires g in s.gcs && ApplyDrop(s, g, name, outcome).Some?
    ensures s.gcs[g].Dropping?
  {
  }

  lemma {:induction false} SafeRun(s: State, steps: seq<Step>)
    requires Safe(s) && Run(s, steps).Some? && QuietRun(s, steps)
    ensures Safe(Run(s, steps).value)
  {
    if steps != [] {
      var last := |steps| - 1;
      var before := steps[..last];
      assert forall k :: 0 <= k < last ==> before[..k] == steps[..k];
      SafeRun(s, before);
      assert Quiet(Run(s, before).value, steps[last]);
      SafeStep(Run(s, before).value, steps[last]);
    }
  }

  /**
   * From any complete bucket without a GC under way, every quiet run, with any number of
   * GC runs of all kinds and backups in flight, ends in a complete bucket.
   */
  lemma GcKeepsSnapshots(s: State, steps: seq<Step>)
    requires Complete(s) && s.gcs == map[]
    requires Run(s, steps).Some? && QuietRun(s, steps)
    ensures Safe(Run(s, steps).value) && Complete(Run(s, steps).value)
  {
    hide Run;
    hide QuietRun;
    SafeRun(s, steps);
  }

  // ---- Failed deletes ----

  /** A delete that takes a blob some manifest still names. */
  predicate Loses(s: State, step: Step) {
    step.EraseBlob? && step.effect && exists n :: n in s.manifests && step.hash in s.manifests[n]
  }

  /** One step of anyone but a committing backup keeps a complete bucket complete unless it is such a delete. */
  lemma LosesExactly(s: State, step: Step)
    requires Complete(s) && !step.Commit? && Apply(s, step).Some?
    ensures Complete(Apply(s, step).value) <==> !Loses(s, step)
  {
    hide Union;
    hide Only;
    hide Keys.Selected;
    var t := Apply(s, step).value;
    if Loses(s, step) {
      var n :| n in s.manifests && step.hash in s.manifests[n];
      assert n in t.manifests && step.hash !in t.blobs;
    } else {
      assert forall n :: n in t.manifests ==> n in s.manifests && t.manifests[n] == s.manifests[n];
    }
  }

  lemma {:induction false} PrefixRuns(s: State, steps: seq<Step>, k: nat)
    requires Run(s, steps).Some? && k <= |steps|
    ensures Run(s, steps[..k]).Some?
    decreases |steps|
  {
    if k == |steps| {
      assert steps[..k] == steps;
    } else {
      var last := |steps| - 1;
      PrefixRuns(s, steps[..last], k);
      assert steps[..last][..k] == steps[..k];
    }
  }

  ghost predicate AlwaysComplete(s: State, steps: seq<Step>)
    requires Run(s, steps).Some?
  {
    forall k :: 0 <= k <= |steps| ==> Run(s, steps[..k]).Some? && Complete(Run(s, steps[..k]).value)
  }

  ghost predicate NeverLoses(s: State, steps: seq<Step>)
    requires Run(s, steps).Some?
  {
    forall k :: 0 <= k < |steps| ==> Run(s, steps[..k]).Some? && !Loses(Run(s, steps[..k]).value, steps[k])
  }

  /** Over a whole run without commits, the bucket is always complete exactly when no delete takes a named blob. */
  lemma {:induction false} RunLosesExactly(s: State, steps: seq<Step>)
    requires Complete(s) && Run(s, steps).Some? && forall k :: 0 <= k < |steps| ==> !steps[k].Commit?
    ensures AlwaysComplete(s, steps) <==> NeverLoses(s, steps)
  {
    hide Complete;
    hide Loses;
    if steps == [] {
      assert steps[..0] == [];
    } else {
      var last := |steps| - 1;
      var before := steps[..last];
      assert forall k :: 0 <= k <= last ==> before[..k] == steps[..k];
      PrefixRuns(s, steps, last);
      RunLosesExactly(s, before);
      assert steps[..|steps|] == steps;
      if Complete(Run(s, before).value) {
        LosesExactly(Run(s, before).value, steps[last]);
      }
      assert before[..last] == before;
    }
  }

  lemma {:induction false} RunCons(s: State, step: Step, rest: seq<Step>)
    requires Apply(s, step).Some?
    ensures Run(s, [step] + rest) == Run(Apply(s, step).value, rest)
  {
    hide Apply;
    var steps, last := [step] + rest, |rest|;
    if rest == [] {
      assert steps[..0] == [];
    } else {
      RunCons(s, step, rest[..last - 1]);
      assert steps[..last] == [step] + rest[..last - 1];
    }
  }

  lemma QuietCons(s: State, step: Step, rest: seq<Step>)
    requires Apply(s, step).Some? && Quiet(s, step)
    requires Run(Apply(s, step).value, rest).Some? && QuietRun(Apply(s, step).value, rest)
    ensures Run(s, [step] + rest) == Run(Apply(s, step).value, rest) && QuietRun(s, [step] + rest)
  {
    hide Apply;
    hide Quiet;
    var steps, t := [step] + rest, Apply(s, step).value;
    RunCons(s, step, rest);
    forall k | 0 <= k < |steps|
      ensures Run(s, steps[..k]).Some? && Quiet(Run(s, steps[..k]).value, steps[k])
    {
      if k == 0 {
        assert steps[..0] == [];
      } else {
        RunCons(s, step, rest[..k - 1]);
        assert steps[..k] == [step] + rest[..k - 1];
      }
    }
  }

  /** `g`, done with `name`, drops the rest and deletes a blob that `name` still needs. */
  lemma {:induction false} GoesOnAndLoses(s: State, g: Id, name: Name, hash: Hash) returns (steps: seq<Step>)
    requires g in s.gcs && s.gcs[g].Dropping? && hash in s.gcs[g].exclusive && name !in s.gcs[g].names
    requires name in s.manifests && hash in s.manifests[name] && hash in s.blobs
    ensures Run(s, steps).Some? && QuietRun(s, steps) && !Complete(Run(s, steps).value)
    decreases s.gcs[g].names
  {
    hide Run;
    hide QuietRun;
    if s.gcs[g].names == {} {
      var t := Apply(s, StartErasing(g)).value;
      steps := EraseAndLose(t, g, name, hash);
      QuietCons(s, StartErasing(g), steps);
      steps := [StartErasing(g)] + steps;
    } else {
      var n :| n in s.gcs[g].names;
      var drop := DropManifest(g, n, Dropped);
      steps := GoesOnAndLoses(Apply(s, drop).value, g, name, hash);
      QuietCons(s, drop, steps);
      steps := [drop] + steps;
    }
  }

  lemma EraseAndLose(s: State, g: Id, name: Name, hash: Hash) returns (steps: seq<Step>)
    requires g in s.gcs && s.gcs[g].Erasing? && hash in s.gcs[g].pending
    requires name in s.manifests && hash in s.manifests[name]
    ensures Run(s, steps).Some? && QuietRun(s, steps) && !Complete(Run(s, steps).value)
  {
    var erase := EraseBlob(g, hash, true, false);
    steps := [erase];
    assert Run(Apply(s, erase).value, []) == Some(Apply(s, erase).value);
    QuietCons(s, erase, []);
    assert [erase] + [] == steps;
    var t := Apply(s, erase).value;
    assert name in t.manifests && hash in t.manifests[name] && hash !in t.blobs;
  }

  /** After the failed delete of `name`, some run that is quiet from then on loses a blob. */
  ghost predicate CanLose(s: State, g: Id, name: Name) {
    var t := Apply(s, DropManifest(g, name, NotDropped));
    t.Some? && exists steps :: Run(t.value, steps).Some? && QuietRun(t.value, steps)
                               && !Complete(Run(t.value, steps).value)
  }

  /**
   * The failed delete of a manifest, passed over by `gc-live`, can cost a blob exactly when
   * the manifest still names one that the run is about to delete; other processes do what
   * they like.
   */
  lemma FailedDropExact(s: State, g: Id, name: Name)
    requires Safe(s) && g in s.gcs && s.gcs[g].Dropping? && s.gcs[g].tolerant && name in s.gcs[g].names
    ensures CanLose(s, g, name) <==> Passes(s, DropManifest(g, name, NotDropped))
  {
    var drop := DropManifest(g, name, NotDropped);
    var t := Apply(s, drop).value;
    if Passes(s, drop) {
      var hash :| hash in s.manifests[name] && hash in s.gcs[g].exclusive;
      var steps := GoesOnAndLoses(t, g, name, hash);
    } else {
      SafeStep(s, drop);
      forall steps | Run(t, steps).Some? && QuietRun(t, steps)
        ensures Complete(Run(t, steps).value)
      {
        SafeRun(t, steps);
      }
    }
  }

  /** The blobs `gc-live` deletes when it prunes `prune` out of `ms`. */
  function Exclusive(ms: map<Name, Manifest>, prune: set<Name>): set<Hash> {
    Union(Only(ms, prune)) - Union(ms - prune)
  }

  /** The bucket after `gc-live` has pruned, the manifest deletes of `failed` failing. */
  function Pruned(s: State, prune: set<Name>, failed: set<Name>): State {
    s.(manifests := s.manifests - (prune - failed), blobs := s.blobs - Exclusive(s.manifests, prune))
  }

  lemma PrunedExactly(s: State, prune: set<Name>, failed: set<Name>)
    requires Complete(s) && failed <= prune <= s.manifests.Keys
    ensures Complete(Pruned(s, prune, failed))
            <==> forall n :: n in failed ==> s.manifests[n] <= Union(s.manifests - prune)
  {
    var kept := s.manifests - prune;
    var exclusive := Exclusive(s.manifests, prune);
    forall n | n in s.manifests
      ensures n in prune ==> s.manifests[n] <= Union(Only(s.manifests, prune))
      ensures n !in prune ==> s.manifests[n] <= Union(kept)
    {
      if n in prune {
        InUnion(Only(s.manifests, prune), n);
      } else {
        InUnion(kept, n);
      }
    }
    var t := Pruned(s, prune, failed);
    assert t.blobs.Keys == s.blobs.Keys - exclusive;
    hide Union;
    hide Only;
    assert exclusive !! Union(kept);
    assert forall n :: n in failed ==> (s.manifests[n] !! exclusive <==> s.manifests[n] <= Union(kept));
    assert forall n :: n in t.manifests <==> n in s.manifests && (n !in prune || n in failed);
    assert forall n :: n in t.manifests ==> (s.manifests[n] <= t.blobs.Keys <==> s.manifests[n] !! exclusive);
  }

  /** A step of `gc-live`, with every delete effective but those of the manifests in `failed`. */
  predicate OwnStep(step: Step, g: Id, failed: set<Name>) {
    match step
    case StartGc(f, live) => f == g && live
    case ReadManifest(f, _) => f == g
    case Plan(f, _, _) => f == g
    case DropManifest(f, n, outcome) => f == g && outcome == (if n in failed then NotDropped else Dropped)
    case StartErasing(f) => f == g
    case EraseBlob(f, _, effect, _) => f == g && effect
    case StopGc(f) => f == g
    case _ => false
  }

  predicate Alone(steps: seq<Step>, g: Id, failed: set<Name>) {
    forall k :: 0 <= k < |steps| ==> OwnStep(steps[k], g, failed)
  }

  lemma Same(s: State, g: Id)
    requires g in s.gcs
    ensures WithGc(s, g, s.gcs[g]) == s
  {
    assert s.gcs[g := s.gcs[g]] == s.gcs;
  }

  lemma Again(s: State, g: Id, p: Gc, q: Gc)
    ensures WithGc(WithGc(s, g, p), g, q) == WithGc(s, g, q)
  {
    assert s.gcs[g := p][g := q] == s.gcs[g := q];
  }

  /** Reads what is left to read. */
  lemma {:induction false} ReadsAll(s: State, g: Id, failed: set<Name>) returns (steps: seq<Step>)
    requires g in s.gcs && s.gcs[g].Planning? && s.gcs[g].kind == Live
    requires var p := s.gcs[g]; p.unread + p.read.Keys == s.manifests.Keys
                                && forall n :: n in p.read ==> p.read[n] == s.manifests[n]
    ensures Run(s, steps) == Some(WithGc(s, g, Planning(Live, s.gcs[g].listedAt, {}, s.manifests)))
    ensures Alone(steps, g, failed)
    decreases s.gcs[g].unread
  {
    hide Run;
    var p := s.gcs[g];
    if p.unread == {} {
      assert p.read == s.manifests;
      Same(s, g);
      steps := Stays(s);
    } else {
      var n :| n in p.unread;
      var t := Apply(s, ReadManifest(g, n)).value;
      steps := ReadsAll(t, g, failed);
      Again(s, g, t.gcs[g], Planning(Live, p.listedAt, {}, s.manifests));
      RunCons(s, ReadManifest(g, n), steps);
      steps := [ReadManifest(g, n)] + steps;
    }
  }

  lemma Stays(s: State) returns (steps: seq<Step>)
    ensures steps == [] && Run(s, steps) == Some(s)
  {
    steps := [];
  }

  /** Tries to delete the manifests, in vain for those in `failed`. */
  lemma {:induction false} DropsAll(s: State, g: Id, failed: set<Name>) returns (steps: seq<Step>)
    requires g in s.gcs && s.gcs[g].Dropping? && s.gcs[g].tolerant
    ensures var p := s.gcs[g];
            Run(s, steps) == Some(WithGc(s.(manifests := s.manifests - (p.names - failed)), g, p.(names := {})))
    ensures Alone(steps, g, failed)
    decreases s.gcs[g].names
  {
    hide Run;
    var p := s.gcs[g];
    if p.names == {} {
      assert s.manifests - (p.names - failed) == s.manifests;
      Same(s, g);
      steps := Stays(s);
    } else {
      var n :| n in p.names;
      var drop := DropManifest(g, n, if n in failed then NotDropped else Dropped);
      var t := Apply(s, drop).value;
      steps := DropsAll(t, g, failed);
      var left := s.manifests - (p.names - failed);
      assert t.manifests - (t.gcs[g].names - failed) == left;
      Again(s.(manifests := left), g, t.gcs[g], p.(names := {}));
      assert t.(manifests := left) == WithGc(s.(manifests := left), g, t.gcs[g]);
      RunCons(s, drop, steps);
      steps := [drop] + steps;
    }
  }

  lemma {:induction false} ErasesAll(s: State, g: Id, failed: set<Name>) returns (steps: seq<Step>)
    requires g in s.gcs && s.gcs[g].Erasing?
    ensures Run(s, steps) == Some(WithGc(s.(blobs := s.blobs - s.gcs[g].pending), g, Erasing({})))
    ensures Alone(steps, g, failed)
    decreases s.gcs[g].pending
  {
    hide Run;
    var pending := s.gcs[g].pending;
    if pending == {} {
      assert s.blobs - pending == s.blobs;
      Same(s, g);
      steps := Stays(s);
    } else {
      var h :| h in pending;
      var t := Apply(s, EraseBlob(g, h, true, false)).value;
      steps := ErasesAll(t, g, failed);
      var left := s.blobs - pending;
      assert t.blobs - t.gcs[g].pending == left;
      Again(s.(blobs := left), g, t.gcs[g], Erasing({}));
      RunCons(s, EraseBlob(g, h, true, false), steps);
      steps := [EraseBlob(g, h, true, false)] + steps;
    }
  }

  /** A run of `gc-live` from its plan on, others standing still. */
  lemma PrunesAlone(s: State, g: Id, prune: set<Name>, failed: set<Name>) returns (steps: seq<Step>)
    requires g in s.gcs && s.gcs[g] == Dropping(prune, Exclusive(s.manifests, prune), true)
    ensures Run(s, steps) == Some(WithoutGc(Pruned(s, prune, failed), g))
    ensures Alone(steps, g, failed)
  {
    hide Run;
    hide Exclusive;
    var drops := DropsAll(s, g, failed);
    var t := Run(s, drops).value;
    var u := Apply(t, StartErasing(g)).value;
    var erases := ErasesAll(u, g, failed);
    var v := Run(u, erases).value;
    RunSnoc(u, erases, StopGc(g));
    RunCons(t, StartErasing(g), erases + [StopGc(g)]);
    steps := [StartErasing(g)] + (erases + [StopGc(g)]);
    RunConcat(s, drops, steps);
    steps := drops + steps;
    assert Apply(v, StopGc(g)).value == WithoutGc(Pruned(s, prune, failed), g);
  }

  lemma RunSnoc(s: State, steps: seq<Step>, step: Step)
    requires Run(s, steps).Some?
    ensures Run(s, steps + [step]) == Apply(Run(s, steps).value, step)
  {
    assert (steps + [step])[..|steps|] == steps;
  }

  lemma {:induction false} RunConcat(s: State, a: seq<Step>, b: seq<Step>)
    requires Run(s, a).Some?
    ensures Run(s, a + b) == Run(Run(s, a).value, b)
    decreases |b|
  {
    hide Apply;
    if b == [] {
      assert a + b == a;
    } else {
      var last := |b| - 1;
      RunConcat(s, a, b[..last]);
      assert (a + b)[..|a| + last] == a + b[..last];
    }
  }

  /**
   * What `Passes` comes to when `gc-live` is alone: it has a run in which the manifest deletes
   * of `failed` fail, and that leaves the bucket complete exactly when each of these manifests
   * shares all its blobs with a kept one.
   */
  lemma LiveFailureExact(s: State, g: Id, prune: set<Name>, failed: set<Name>) returns (steps: seq<Step>)
    requires Complete(s) && g !in s.gcs && failed <= prune <= s.manifests.Keys
    ensures Alone(steps, g, failed) && Run(s, steps) == Some(Pruned(s, prune, failed))
    ensures Complete(Run(s, steps).value)
            <==> forall n :: n in failed ==> s.manifests[n] <= Union(s.manifests - prune)
  {
    hide Run;
    hide Union;
    hide Only;
    var start, plan := StartGc(g, true), Plan(g, prune, 0);
    var s1 := Apply(s, start).value;
    var reading := ReadsAll(s1, g, failed);
    var s2 := Run(s1, reading).value;
    var s3 := Apply(s2, plan).value;
    var rest := PrunesAlone(s3, g, prune, failed);
    RunCons(s2, plan, rest);
    RunConcat(s1, reading, [plan] + rest);
    RunCons(s, start, reading + ([plan] + rest));
    steps := [start] + (reading + ([plan] + rest));
    assert WithoutGc(Pruned(s3, prune, failed), g) == Pruned(s, prune, failed);
    PrunedExactly(s, prune, failed);
  }

  /** One snapshot with one blob, pruned by a `gc-live` whose manifest delete fails. */
  function FailingLive(name: Name, hash: Hash): seq<Step> {
    [StartGc(0, true), ReadManifest(0, name), Plan(0, {name}, 0), DropManifest(0, name, NotDropped),
     StartErasing(0), EraseBlob(0, hash, true, false)]
  }

  function FailingStates(name: Name, hash: Hash): seq<State> {
    var s := State(0, map[hash := 0], map[name := {hash}], map[], map[]);
    var s1 := WithGc(s, 0, Planning(Live, 0, s.manifests.Keys, map[]));
    var s2 := WithGc(s1, 0, Planning(Live, 0, s.manifests.Keys - {name}, map[][name := {hash}]));
    var s3 := WithGc(s2, 0, Dropping({name}, {hash}, true));
    var s4 := WithGc(s3, 0, Dropping({name} - {name}, {hash}, true));
    var s5 := WithGc(s4, 0, Erasing({hash}));
    var s6 := WithGc(s5.(blobs := s5.blobs - {hash}), 0, Erasing({hash} - {hash}));
    [s, s1, s2, s3, s4, s5, s6]
  }

  lemma FailingChain(name: Name, hash: Hash)
    ensures Chain(FailingStates(name, hash), FailingLive(name, hash))
    ensures Complete(FailingStates(name, hash)[0]) && !Complete(FailingStates(name, hash)[6])
  {
    var read: map<Name, Manifest> := map[][name := {hash}];
    assert Only(read, {name}) == read && read - {name} == map[];
    InUnion(read, name);
    assert Exclusive(read, {name}) == {hash};
    hide Union;
    hide Only;
  }

  /** The exclusion is needed: `gc-live` itself can leave a snapshot without its blob. */
  lemma LiveDeleteFailure(name: Name, hash: Hash)
    ensures var s := State(0, map[hash := 0], map[name := {hash}], map[], map[]);
            && Complete(s) && Run(s, FailingLive(name, hash)).Some?
            && !Complete(Run(s, FailingLive(name, hash)).value)
  {
    var steps := FailingLive(name, hash);
    assert steps[..6] == steps;
    FailingChain(name, hash);
    hide Chain;
    hide Run;
    ChainRuns(FailingStates(name, hash), steps, 6);
  }
}

/**
 * Exactly when GC and backups at the same time can lose a blob. Runs of all three GC commands,
 * backups and their commits interleave as they like.
 */
module GcExact {
  import opened Wrappers
  import opened Bytes
  import opened GcStore
  import opened GcSafety
  import opened GcGrace
  import opened GcThreat
  import Keys

  // ---- Endangered blobs can be lost ----

  predicate Free(b: Bounds, s: State, step: Step) { Punctual(b, s, step) && Innocent(s, step) }

  ghost predicate FreeAt(b: Bounds, s: State, steps: seq<Step>, k: nat)
    requires k < |steps|
  {
    Run(s, steps[..k]).Some? && Free(b, Run(s, steps[..k]).value, steps[k])
  }

  ghost predicate FreeRun(b: Bounds, s: State, steps: seq<Step>) {
    forall k :: 0 <= k < |steps| ==> FreeAt(b, s, steps, k)
  }

  /** A run of punctual innocent steps that ends with a blob of a snapshot missing. */
  ghost predicate Losing(b: Bounds, s: State, steps: seq<Step>) {
    Run(s, steps).Some? && FreeRun(b, s, steps) && !Complete(Run(s, steps).value)
  }

  /** A blob can be lost without a further commit or failed delete that is passed over. */
  ghost predicate CanLose(b: Bounds, s: State) {
    exists steps :: Losing(b, s, steps)
  }

  lemma LosingCons(b: Bounds, s: State, step: Step, rest: seq<Step>)
    requires Apply(s, step).Some? && Free(b, s, step) && Losing(b, Apply(s, step).value, rest)
    ensures Losing(b, s, [step] + rest)
  {
    hide Apply;
    hide Free;
    hide Complete;
    var steps, t := [step] + rest, Apply(s, step).value;
    RunCons(s, step, rest);
    forall k | 0 <= k < |steps|
      ensures FreeAt(b, s, steps, k)
    {
      if k == 0 {
        assert steps[..0] == [];
      } else {
        RunCons(s, step, rest[..k - 1]);
        assert steps[..k] == [step] + rest[..k - 1];
        assert FreeAt(b, t, rest, k - 1);
      }
    }
  }

  lemma LostAlready(b: Bounds, s: State, n: Name, h: Hash)
    requires Names(s, n, h) && h !in s.blobs
    ensures Losing(b, s, [])
  {
  }

  /** A candidate is deleted. */
  lemma ErasedLoses(b: Bounds, s: State, g: Id, n: Name, h: Hash) returns (steps: seq<Step>)
    requires g in s.gcs && (s.gcs[g].Scanning? || s.gcs[g].Erasing?) && h in s.gcs[g].pending && Names(s, n, h)
    ensures Losing(b, s, steps)
  {
    var step := EraseBlob(g, h, true, false);
    LostAlready(b, Apply(s, step).value, n, h);
    LosingCons(b, s, step, []);
    steps := [step] + [];
  }

  /** An old orphan is listed, and deleted. */
  lemma ScannedLoses(b: Bounds, s: State, g: Id, n: Name, h: Hash) returns (steps: seq<Step>)
    requires g in s.gcs && s.gcs[g].Scanning? && Names(s, n, h)
    requires Takes(s, s.gcs[g].referenced, h) && s.blobs[h] <= s.gcs[g].cutoff
    ensures Losing(b, s, steps)
  {
    hide Keys.Selected;
    hide Losing;
    var step := ListBlob(g, h);
    steps := ErasedLoses(b, Apply(s, step).value, g, n, h);
    LosingCons(b, s, step, steps);
    steps := [step] + steps;
  }

  /** The other manifests are deleted, and the blob. */
  lemma {:induction false} DroppedLoses(b: Bounds, s: State, g: Id, n: Name, h: Hash) returns (steps: seq<Step>)
    requires g in s.gcs && s.gcs[g].Dropping? && h in s.gcs[g].exclusive && n !in s.gcs[g].names && Names(s, n, h)
    ensures Losing(b, s, steps)
    decreases s.gcs[g].names
  {
    hide Losing;
    var step := StartErasing(g);
    if s.gcs[g].names == {} {
      steps := ErasedLoses(b, Apply(s, step).value, g, n, h);
    } else {
      var m :| m in s.gcs[g].names;
      step := DropManifest(g, m, Dropped);
      steps := DroppedLoses(b, Apply(s, step).value, g, n, h);
    }
    LosingCons(b, s, step, steps);
    steps := [step] + steps;
  }

  /** `gc-all` waits for the latest cutoff, plans, lists and deletes. */
  lemma {:induction false} PlannedLoses(b: Bounds, s: State, g: Id, n: Name, h: Hash) returns (steps: seq<Step>)
    requires g in s.gcs && s.gcs[g].Planning? && s.gcs[g].kind.All? && s.gcs[g].unread == {} && Names(s, n, h)
    requires var p := s.gcs[g];
             && s.now <= p.listedAt + b.plan
             && Takes(s, Union(p.read), h) && s.blobs[h] <= p.listedAt + b.plan - b.grace
    ensures Losing(b, s, steps)
    decreases s.gcs[g].listedAt + b.plan - s.now
  {
    hide Keys.Selected;
    hide Union;
    hide Losing;
    var step := Tick;
    if s.now == s.gcs[g].listedAt + b.plan {
      step := Plan(g, {}, b.grace);
      steps := ScannedLoses(b, Apply(s, step).value, g, n, h);
    } else {
      steps := PlannedLoses(b, Apply(s, step).value, g, n, h);
    }
    LosingCons(b, s, step, steps);
    steps := [step] + steps;
  }

  /** `rm-snapshot` plans to delete what the manifests it has read do not name. */
  lemma RemovalLoses(b: Bounds, s: State, g: Id, n: Name, h: Hash) returns (steps: seq<Step>)
    requires g in s.gcs && s.gcs[g].Planning? && s.gcs[g].kind.Remove? && s.gcs[g].unread == {} && Names(s, n, h)
    requires var p := s.gcs[g]; n != p.kind.target && h in p.kind.parts && !HeldBy(p.read, h)
    ensures Losing(b, s, steps)
  {
    hide Losing;
    UnionHolds(s.gcs[g].read, h);
    var step := Plan(g, {}, 0);
    steps := DroppedLoses(b, Apply(s, step).value, g, n, h);
    LosingCons(b, s, step, steps);
    steps := [step] + steps;
  }

  /** `gc-live` prunes all manifests it has read that name the blob. */
  lemma PrunedLoses(b: Bounds, s: State, g: Id, n: Name, h: Hash) returns (steps: seq<Step>)
    requires g in s.gcs && s.gcs[g].Planning? && s.gcs[g].kind.Live? && s.gcs[g].unread == {} && Names(s, n, h)
    requires var read := s.gcs[g].read; HeldBy(read, h) && !(n in read && h in read[n])
    ensures Losing(b, s, steps)
  {
    hide Losing;
    var read := s.gcs[g].read;
    var prune := set m | m in read && h in read[m];
    UnionHolds(Only(read, prune), h);
    UnionHolds(read - prune, h);
    var m :| m in read && h in read[m];
    assert m in Only(read, prune) && h in Only(read, prune)[m];
    var step := Plan(g, prune, 0);
    steps := DroppedLoses(b, Apply(s, step).value, g, n, h);
    LosingCons(b, s, step, steps);
    steps := [step] + steps;
  }

  /** A run that has read everything. */
  lemma AllReadLoses(b: Bounds, s: State, g: Id, n: Name, h: Hash) returns (steps: seq<Step>)
    requires g in s.gcs && s.gcs[g].Planning? && s.gcs[g].unread == {}
    requires Names(s, n, h) && Threatens(b, s, s.gcs[g], n, h)
    ensures Losing(b, s, steps)
  {
    var p := s.gcs[g];
    assert Will(s, p) == p.read;
    hide Losing;
    hide Will;
    match p.kind
    case All => steps := PlannedLoses(b, s, g, n, h);
    case Remove(_, _) => steps := RemovalLoses(b, s, g, n, h);
    case Live => steps := PrunedLoses(b, s, g, n, h);
  }

  /** A planning run reads what is left to read first. */
  lemma {:induction false} ReadLoses(b: Bounds, s: State, g: Id, n: Name, h: Hash) returns (steps: seq<Step>)
    requires g in s.gcs && s.gcs[g].Planning? && s.gcs[g].unread <= s.manifests.Keys
    requires Names(s, n, h) && Threatens(b, s, s.gcs[g], n, h)
    ensures Losing(b, s, steps)
    decreases s.gcs[g].unread
  {
    hide Losing;
    hide Threatens;
    if s.gcs[g].unread == {} {
      steps := AllReadLoses(b, s, g, n, h);
    } else {
      var m :| m in s.gcs[g].unread;
      var step := ReadManifest(g, m);
      ReadThreat(b, s, g, m, n, h);
      steps := ReadLoses(b, Apply(s, step).value, g, n, h);
      LosingCons(b, s, step, steps);
      steps := [step] + steps;
    }
  }

  lemma ThreatenedLoses(b: Bounds, s: State, g: Id, n: Name, h: Hash) returns (steps: seq<Step>)
    requires g in s.gcs && Names(s, n, h) && Threatens(b, s, s.gcs[g], n, h)
    ensures Losing(b, s, steps)
  {
    hide Losing;
    hide WillThreaten;
    match s.gcs[g]
    case Planning(_, _, _, _) => steps := ReadLoses(b, s, g, n, h);
    case Scanning(_, _, _, pending) =>
      if h in pending {
        steps := ErasedLoses(b, s, g, n, h);
      } else {
        steps := ScannedLoses(b, s, g, n, h);
      }
    case Dropping(_, _, _) => steps := DroppedLoses(b, s, g, n, h);
    case Erasing(_) => steps := ErasedLoses(b, s, g, n, h);
  }

  // ---- The exact condition ----

  lemma LastStep(s: State, steps: seq<Step>)
    requires steps != [] && Run(s, steps).Some?
    ensures Run(s, steps[..|steps| - 1]).Some?
    ensures Apply(Run(s, steps[..|steps| - 1]).value, steps[|steps| - 1]) == Run(s, steps)
  {
    hide Apply;
  }

  lemma FreeBefore(b: Bounds, s: State, steps: seq<Step>)
    requires steps != [] && Run(s, steps).Some? && Run(s, steps[..|steps| - 1]).Some? && FreeRun(b, s, steps)
    ensures FreeRun(b, s, steps[..|steps| - 1])
    ensures Free(b, Run(s, steps[..|steps| - 1]).value, steps[|steps| - 1])
  {
    hide Run;
    hide Free;
    var before := steps[..|steps| - 1];
    assert FreeAt(b, s, steps, |steps| - 1);
    forall k | 0 <= k < |before|
      ensures FreeAt(b, s, before, k)
    {
      assert before[..k] == steps[..k] && FreeAt(b, s, steps, k);
    }
  }

  lemma {:induction false} CalmRun(b: Bounds, s: State, steps: seq<Step>)
    requires !Endangered(b, s) && NoFuture(s) && Run(s, steps).Some? && FreeRun(b, s, steps)
    ensures !Endangered(b, Run(s, steps).value) && NoFuture(Run(s, steps).value)
  {
    hide Endangered;
    hide NoFuture;
    hide Apply;
    hide FreeRun;
    if steps != [] {
      var last := |steps| - 1;
      LastStep(s, steps);
      FreeBefore(b, s, steps);
      CalmRun(b, s, steps[..last]);
      CalmStep(b, Run(s, steps[..last]).value, steps[last]);
      FutureStep(Run(s, steps[..last]).value, steps[last]);
    }
  }

  /**
   * In every state, with any GC runs and backups under way: a blob can be lost without a
   * further commit or passed-over failure exactly when one that a manifest names is missing,
   * or threatened by some run.
   */
  lemma StateExact(b: Bounds, s: State)
    requires NoFuture(s)
    ensures CanLose(b, s) <==> Endangered(b, s)
  {
    if Endangered(b, s) {
      var n, h :| Names(s, n, h) && Exposed(b, s, n, h);
      if h in s.blobs {
        var g :| g in s.gcs && Threatens(b, s, s.gcs[g], n, h);
        var steps := ThreatenedLoses(b, s, g, n, h);
      } else {
        LostAlready(b, s, n, h);
      }
    } else {
      forall steps | Run(s, steps).Some? && FreeRun(b, s, steps)
        ensures Complete(Run(s, steps).value)
      {
        CalmRun(b, s, steps);
        CalmIsComplete(b, Run(s, steps).value);
      }
    }
  }

  predicate NamesExposed(b: Bounds, s: State, step: Step)
    requires step.Commit?
  {
    exists h :: h in step.parts && Exposed(b, s, step.name, h)
  }

  /** No run has listed, and not yet read, an earlier manifest of the name. */
  predicate NewName(s: State, name: Name) {
    forall g :: g in s.gcs && s.gcs[g].Planning? ==> name !in s.gcs[g].unread
  }

  lemma NewNameThreat(b: Bounds, s: State, t: State, name: Name, parts: Manifest, p: Gc, n: Name, h: Hash)
    requires p.Planning? ==> name !in p.unread
    requires t.now == s.now && t.blobs == s.blobs && t.manifests == s.manifests[name := parts]
    ensures Threatens(b, t, p, n, h) <==> Threatens(b, s, p, n, h)
  {
    if p.Planning? {
      assert Only(t.manifests, p.unread) == Only(s.manifests, p.unread);
    }
    hide Union;
    hide Only;
    hide Keys.Selected;
  }

  lemma NewNameExposed(b: Bounds, s: State, step: Step, n: Name, h: Hash)
    requires step.Commit? && Apply(s, step).Some? && NewName(s, step.name)
    ensures Exposed(b, Apply(s, step).value, n, h) <==> Exposed(b, s, n, h)
  {
    var t := Apply(s, step).value;
    forall g | g in s.gcs
      ensures Threatens(b, t, s.gcs[g], n, h) <==> Threatens(b, s, s.gcs[g], n, h)
    {
      NewNameThreat(b, s, t, step.name, step.parts, s.gcs[g], n, h);
    }
    hide Threatens;
  }

  /** A commit can cost a blob exactly when it names one that is missing or threatened at that moment. */
  lemma CommitExact(b: Bounds, s: State, step: Step)
    requires !Endangered(b, s) && NoFuture(s) && step.Commit? && Apply(s, step).Some? && NewName(s, step.name)
    ensures CanLose(b, Apply(s, step).value) <==> NamesExposed(b, s, step)
  {
    var t := Apply(s, step).value;
    assert t.manifests == s.manifests[step.name := step.parts] && t.blobs == s.blobs && t.now == s.now;
    StateExact(b, t);
    hide Apply;
    hide CanLose;
    forall n, h | Names(t, n, h)
      ensures Exposed(b, t, n, h) <==> Exposed(b, s, n, h)
      ensures Exposed(b, s, n, h) ==> n == step.name
    {
      NewNameExposed(b, s, step, n, h);
      if n != step.name {
        assert Names(s, n, h);
      }
    }
    hide Exposed;
    forall h | h in step.parts
      ensures Names(t, step.name, h)
    {
    }
  }

  /** A failed delete that is passed over although the run is to delete a blob of the manifest endangers it. */
  lemma PassedOverEndangers(b: Bounds, s: State, step: Step)
    requires Passes(s, step) && Apply(s, step).Some?
    ensures Endangered(b, Apply(s, step).value)
  {
    var t := Apply(s, step).value;
    var h :| h in s.manifests[step.name] && h in s.gcs[step.g].exclusive;
    assert Threatens(b, t, t.gcs[step.g], step.name, h);
    assert Names(t, step.name, h) && Exposed(b, t, step.name, h);
  }

  // ---- Whole runs ----

  ghost predicate PunctualAt(b: Bounds, s: State, steps: seq<Step>, k: nat)
    requires k < |steps|
  {
    Run(s, steps[..k]).Some? && Punctual(b, Run(s, steps[..k]).value, steps[k])
  }

  ghost predicate PunctualRun(b: Bounds, s: State, steps: seq<Step>) {
    forall k :: 0 <= k < |steps| ==> PunctualAt(b, s, steps, k)
  }

  /** A commit after which the bucket is endangered, or such a failed delete. */
  ghost predicate Endangers(b: Bounds, s: State, step: Step) {
    Passes(s, step) || (step.Commit? && Apply(s, step).Some? && Endangered(b, Apply(s, step).value))
  }

  /** After `k` steps no loss can follow. */
  ghost predicate SafeAt(b: Bounds, s: State, steps: seq<Step>, k: nat)
    requires k <= |steps|
  {
    Run(s, steps[..k]).Some? && !CanLose(b, Run(s, steps[..k]).value)
  }

  ghost predicate SoundAt(b: Bounds, s: State, steps: seq<Step>, k: nat)
    requires k < |steps|
  {
    Run(s, steps[..k]).Some? && !Endangers(b, Run(s, steps[..k]).value, steps[k])
  }

  ghost predicate NeverCanLose(b: Bounds, s: State, steps: seq<Step>) {
    forall k :: 0 <= k <= |steps| ==> SafeAt(b, s, steps, k)
  }

  ghost predicate NoneEndangers(b: Bounds, s: State, steps: seq<Step>) {
    forall k :: 0 <= k < |steps| ==> SoundAt(b, s, steps, k)
  }

  lemma SameMoment(b: Bounds, s: State, steps: seq<Step>, last: nat, k: nat)
    requires k <= last < |steps|
    ensures SafeAt(b, s, steps[..last], k) <==> SafeAt(b, s, steps, k)
    ensures k < last ==> (PunctualAt(b, s, steps[..last], k) <==> PunctualAt(b, s, steps, k))
    ensures k < last ==> (SoundAt(b, s, steps[..last], k) <==> SoundAt(b, s, steps, k))
  {
    hide Run;
    hide CanLose;
    hide Endangers;
    hide Punctual;
    assert steps[..last][..k] == steps[..k];
  }

  lemma LastMoment(b: Bounds, s: State, steps: seq<Step>)
    requires steps != [] && Run(s, steps).Some? && Run(s, steps[..|steps| - 1]).Some?
    ensures var t, step := Run(s, steps[..|steps| - 1]).value, steps[|steps| - 1];
            && (SafeAt(b, s, steps, |steps|) <==> !CanLose(b, Run(s, steps).value))
            && (PunctualAt(b, s, steps, |steps| - 1) <==> Punctual(b, t, step))
            && (SoundAt(b, s, steps, |steps| - 1) <==> !Endangers(b, t, step))
  {
    hide Run;
    hide CanLose;
    hide Endangers;
    hide Punctual;
    assert steps[..|steps|] == steps;
  }

  /** What is said of every moment of a run is said of those before its last step, and of its end. */
  lemma OneStepMore(b: Bounds, s: State, steps: seq<Step>)
    requires steps != [] && Run(s, steps).Some? && Run(s, steps[..|steps| - 1]).Some? && PunctualRun(b, s, steps)
    ensures var before, step := steps[..|steps| - 1], steps[|steps| - 1];
            && PunctualRun(b, s, before) && Punctual(b, Run(s, before).value, step)
            && (NeverCanLose(b, s, steps) <==> NeverCanLose(b, s, before) && !CanLose(b, Run(s, steps).value))
            && (NoneEndangers(b, s, steps) <==>
                  NoneEndangers(b, s, before) && !Endangers(b, Run(s, before).value, step))
  {
    hide Run;
    hide Punctual;
    hide CanLose;
    hide Endangers;
    hide SafeAt;
    hide PunctualAt;
    hide SoundAt;
    var last := |steps| - 1;
    LastMoment(b, s, steps);
    forall k | 0 <= k <= last
      ensures SafeAt(b, s, steps[..last], k) <==> SafeAt(b, s, steps, k)
      ensures k < last ==> (PunctualAt(b, s, steps[..last], k) <==> PunctualAt(b, s, steps, k))
      ensures k < last ==> (SoundAt(b, s, steps[..last], k) <==> SoundAt(b, s, steps, k))
    {
      SameMoment(b, s, steps, last, k);
    }
  }

  lemma StepExact(b: Bounds, s: State, step: Step)
    requires !Endangered(b, s) && NoFuture(s) && Apply(s, step).Some? && Punctual(b, s, step)
    ensures NoFuture(Apply(s, step).value)
    ensures CanLose(b, Apply(s, step).value) <==> Endangers(b, s, step)
    ensures !Endangers(b, s, step) ==> !Endangered(b, Apply(s, step).value)
  {
    hide Endangered;
    hide CanLose;
    hide NoFuture;
    hide Passes;
    FutureStep(s, step);
    StateExact(b, Apply(s, step).value);
    if Passes(s, step) {
      PassedOverEndangers(b, s, step);
    } else if !step.Commit? {
      CalmStep(b, s, step);
    }
  }

  /**
   * Over whole runs of any GC commands and backups: at no moment a loss can follow without a
   * further commit or passed-over failure exactly when none of these endangers the bucket.
   */
  lemma {:induction false} DangerExact(b: Bounds, s: State, steps: seq<Step>)
    requires !Endangered(b, s) && NoFuture(s) && Run(s, steps).Some? && PunctualRun(b, s, steps)
    ensures NeverCanLose(b, s, steps) <==> NoneEndangers(b, s, steps)
    ensures NoneEndangers(b, s, steps) ==> !Endangered(b, Run(s, steps).value)
    ensures NoFuture(Run(s, steps).value)
  {
    if steps == [] {
      assert steps[..0] == [];
      hide Endangered;
      hide CanLose;
      hide NoFuture;
      StateExact(b, s);
    } else {
      var last := |steps| - 1;
      hide *;
      LastStep(s, steps);
      OneStepMore(b, s, steps);
      DangerExact(b, s, steps[..last]);
      var t := Run(s, steps[..last]).value;
      FutureStep(t, steps[last]);
      if NoneEndangers(b, s, steps[..last]) {
        StepExact(b, t, steps[last]);
      }
    }
  }

  /** A step that is timed for the grace period endangers nothing. */
  lemma TimedIsSafe(b: Bounds, s: State, step: Step)
    requires Enough(b) && GraceHolds(b, s) && Apply(s, step).Some? && Timed(b, s, step)
    ensures Punctual(b, s, step) && !Endangers(b, s, step)
  {
    hide GraceHolds;
    hide Endangered;
    GraceStep(b, s, step);
    GraceIsCalm(b, Apply(s, step).value);
  }
}

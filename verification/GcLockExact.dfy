/**
 * Exactly when mutual exclusion is lost: at an effective delete of the lock object while
 * another instance is live.
 */
module GcLockExact {
  import opened Wrappers
  import opened GcLock
  import Sets

  /** Every live instance owns the lock object, so there is one at most. */
  predicate LiveOwns(s: State) {
    forall i :: i in s.procs && Live(s.procs[i]) ==> Owner(s.obj) == Some(i)
  }

  predicate TwoLive(s: State) {
    exists i, j :: i in s.procs && j in s.procs && i != j && Live(s.procs[i]) && Live(s.procs[j])
  }

  /** `break_stale` or `release` deletes the object while another instance is live. */
  predicate Breaks(s: State, step: Step) {
    (step.DeleteStale? || step.DeleteOwn?) && step.effect
    && exists j :: j in s.procs && j != step.i && Live(s.procs[j])
  }

  lemma OwnersExclude(s: State)
    requires LiveOwns(s)
    ensures !TwoLive(s)
  {
  }

  /** A step of any instance leaves the live ones in possession exactly when it is no such delete. */
  lemma BreaksExactly(s: State, step: Step)
    requires LiveOwns(s) && Apply(s, step).Some?
    ensures LiveOwns(Apply(s, step).value) <==> !Breaks(s, step)
  {
    var t := Apply(s, step).value;
    if Breaks(s, step) {
      var j :| j in s.procs && j != step.i && Live(s.procs[j]);
      assert j in t.procs && t.procs[j] == s.procs[j] && t.obj.None?;
    }
  }

  ghost predicate NeverBreaks(s: State, steps: seq<Step>)
    requires Run(s, steps).Some?
  {
    forall k :: 0 <= k < |steps| ==> Run(s, steps[..k]).Some? && !Breaks(Run(s, steps[..k]).value, steps[k])
  }

  ghost predicate AlwaysOwned(s: State, steps: seq<Step>)
    requires Run(s, steps).Some?
  {
    forall k :: 0 <= k <= |steps| ==> Run(s, steps[..k]).Some? && LiveOwns(Run(s, steps[..k]).value)
  }

  lemma {:induction false} PrefixRuns(s: State, steps: seq<Step>, k: nat)
    requires Run(s, steps).Some? && k <= |steps|
    ensures Run(s, steps[..k]).Some?
    decreases |steps|
  {
    hide Apply;
    if k == |steps| {
      assert steps[..k] == steps;
    } else {
      var last := |steps| - 1;
      PrefixRuns(s, steps[..last], k);
      assert steps[..last][..k] == steps[..k];
    }
  }

  /** Over a whole run: the live instance always owns the object exactly when no step breaks the lock. */
  lemma {:induction false} OwnedExactly(s: State, steps: seq<Step>)
    requires LiveOwns(s) && Run(s, steps).Some?
    ensures AlwaysOwned(s, steps) <==> NeverBreaks(s, steps)
  {
    hide LiveOwns;
    hide Breaks;
    hide Apply;
    if steps == [] {
      assert steps[..0] == [];
    } else {
      var last := |steps| - 1;
      var before := steps[..last];
      assert forall k :: 0 <= k <= last ==> before[..k] == steps[..k];
      assert steps[..|steps|] == steps && before[..last] == before;
      PrefixRuns(s, steps, last);
      OwnedExactly(s, before);
      if LiveOwns(Run(s, before).value) {
        BreaksExactly(Run(s, before).value, steps[last]);
      }
    }
  }

  // ---- What a break leads to ----

  /** A run that breaks nothing more ends with two live instances. */
  ghost predicate Doubling(s: State, steps: seq<Step>) {
    Run(s, steps).Some? && NeverBreaks(s, steps) && TwoLive(Run(s, steps).value)
  }

  ghost predicate CanDouble(s: State) {
    exists steps :: Doubling(s, steps)
  }

  lemma OwnedNeverDoubles(s: State)
    requires LiveOwns(s)
    ensures !CanDouble(s)
  {
    forall steps | Run(s, steps).Some? && NeverBreaks(s, steps)
      ensures !TwoLive(Run(s, steps).value)
    {
      OwnedExactly(s, steps);
      assert steps[..|steps|] == steps;
      OwnersExclude(Run(s, steps).value);
    }
  }

  /** An instance that has never run, and an etag that was never given. */
  lemma Newcomer(s: State) returns (i: Id, etag: nat)
    ensures Apply(s, Start(i)).Some? && i !in s.procs && etag !in s.tags
  {
    var holders: set<Id> := set o | o in s.history && o.Some? :: o.value;
    var writers: set<Id> := set e | e in s.tags && s.tags[e].Info? :: s.tags[e].owner;
    var p := Sets.UpperBound(s.procs.Keys);
    var h := Sets.UpperBound(holders);
    var w := Sets.UpperBound(writers);
    i := p + h + w + 1;
    etag := Sets.UpperBound(s.tags.Keys);
    etag := etag + 1;
    forall o | o in s.history && o.Some?
      ensures o.value != i
    {
      assert o.value in holders;
    }
    forall e | e in s.tags && s.tags[e].Info?
      ensures s.tags[e].owner != i
    {
      assert s.tags[e].owner in writers;
    }
  }

  /** When the object is gone under a live instance, the next one to come becomes live too. */
  lemma NextDoubles(s: State, j: Id)
    requires s.obj.None? && j in s.procs && Live(s.procs[j])
    ensures CanDouble(s)
  {
    var i, etag := Newcomer(s);
    var start, put := Start(i), TryPut(i, Stored, etag);
    var s1 := Apply(s, start).value;
    var s2 := Apply(s1, put).value;
    assert i in s2.procs && j in s2.procs && Live(s2.procs[i]) && Live(s2.procs[j]);
    RunSnoc(s, [], start);
    RunSnoc(s, [start], put);
    var steps := [start, put];
    assert [] + [start] == [start] && [start] + [put] == steps;
    assert steps[..0] == [] && steps[..1] == [start];
    assert Doubling(s, steps);
  }

  /**
   * A step after which two instances can be live without any further such delete is exactly
   * one that deletes the object while another instance is live.
   */
  lemma DoublesExactly(s: State, step: Step)
    requires LiveOwns(s) && Apply(s, step).Some?
    ensures CanDouble(Apply(s, step).value) <==> Breaks(s, step)
  {
    var t := Apply(s, step).value;
    if Breaks(s, step) {
      var j :| j in s.procs && j != step.i && Live(s.procs[j]);
      NextDoubles(t, j);
    } else {
      BreaksExactly(s, step);
      OwnedNeverDoubles(t);
    }
  }

  ghost predicate NeverCanDouble(s: State, steps: seq<Step>)
    requires Run(s, steps).Some?
  {
    forall k :: 0 <= k <= |steps| ==> Run(s, steps[..k]).Some? && !CanDouble(Run(s, steps[..k]).value)
  }

  /**
   * From any initial state, over any run of any number of instances: at no moment two of them
   * can come to be live without a further break, exactly when no step breaks the lock; and
   * then the live instance always owns the object.
   */
  lemma {:induction false} ExclusionExact(s: State, steps: seq<Step>)
    requires Initial(s) && Run(s, steps).Some?
    ensures NeverCanDouble(s, steps) <==> NeverBreaks(s, steps)
    ensures NeverBreaks(s, steps) ==> LiveOwns(Run(s, steps).value)
  {
    hide LiveOwns;
    hide Breaks;
    hide Apply;
    hide CanDouble;
    InitiallyOwned(s);
    if steps == [] {
      assert steps[..0] == [];
      OwnedNeverDoubles(s);
    } else {
      var last := |steps| - 1;
      var before := steps[..last];
      assert forall k :: 0 <= k <= last ==> before[..k] == steps[..k];
      assert steps[..|steps|] == steps && before[..last] == before;
      PrefixRuns(s, steps, last);
      ExclusionExact(s, before);
      var t := Run(s, before).value;
      if NeverBreaks(s, before) {
        DoublesExactly(t, steps[last]);
        BreaksExactly(t, steps[last]);
      }
    }
  }

  lemma InitiallyOwned(s: State)
    requires Initial(s)
    ensures LiveOwns(s)
  {
  }

  // ---- Runs that do not break the lock, and one that does ----

  lemma ExclusiveBreaksNot(s: State, step: Step)
    requires Exclusive(s) && Apply(s, step).Some?
    ensures !Breaks(s, step)
  {
  }

  /** Guarded runs break nothing: they are a case of `ExclusionExact`. */
  lemma {:induction false} GuardedNeverBreaks(s: State, steps: seq<Step>)
    requires Initial(s) && Run(s, steps).Some? && GuardedRun(s, steps)
    ensures NeverBreaks(s, steps)
  {
    hide Breaks;
    hide Exclusive;
    hide Guarded;
    hide Apply;
    if steps != [] {
      var last := |steps| - 1;
      var before := steps[..last];
      assert forall k :: 0 <= k < last ==> before[..k] == steps[..k];
      GuardedNeverBreaks(s, before);
      ExclusiveRun(s, before);
      ExclusiveBreaksNot(Run(s, before).value, steps[last]);
    }
  }

  /** The race of `TwoHolders` breaks the lock with the second delete. */
  lemma RaceBreaks()
    ensures Run(ABANDONED, RACE[..8]).Some? && Breaks(Run(ABANDONED, RACE[..8]).value, RACE[8])
  {
    hide Run;
    hide GcLock.Owned;
    BothStale();
    RunPrefix(7);
    RunPrefix(8);
    var s := Run(ABANDONED, RACE[..8]).value;
    assert 1 in s.procs && Live(s.procs[1]);
  }
}

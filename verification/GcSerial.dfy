/**
 * GC runs under the lock, as `with_gc_lock` has them: a run works on the bucket while its
 * instance holds the lock, and releases the lock when its work is over.
 */
module GcSerial {
  import opened Wrappers
  import Lock = GcLock
  import Store = GcStore
  import GcLockExact
  import GcOps
  import GcSafety

  /** A GC run and its lock instance have the same number. */
  datatype State = State(lock: Lock.State, store: Store.State)

  datatype Step = Locking(l: Lock.Step) | Storing(b: Store.Step)

  /** A store call of a GC command. */
  predicate Work(step: Store.Step) { GcOps.OfGc(step) && !step.StopGc? }

  predicate Holds(s: State, g: nat) { g in s.lock.procs && s.lock.procs[g].Holding? }

  /**
   * A store call needs the lock to be held, as far as the instance knows; the work is over
   * when the heartbeat is stopped. Backups take no lock.
   */
  function Apply(s: State, step: Step): Option<State> {
    match step
    case Locking(l) =>
      if l.Finish? && l.i in s.store.gcs then None
      else
        var t :- Lock.Apply(s.lock, l);
        Some(s.(lock := t))
    case Storing(b) =>
      if Work(b) && !Holds(s, b.g) then None
      else
        var t :- Store.Apply(s.store, b);
        Some(s.(store := t))
  }

  function Run(s: State, steps: seq<Step>): Option<State> {
    if steps == [] then Some(s)
    else
      var last := |steps| - 1;
      var t :- Run(s, steps[..last]);
      Apply(t, steps[last])
  }

  // ---- The two sides ----

  function LockSteps(steps: seq<Step>): seq<Lock.Step> {
    if steps == [] then []
    else
      var front, last := LockSteps(steps[..|steps| - 1]), steps[|steps| - 1];
      if last.Locking? then front + [last.l] else front
  }

  function StoreSteps(steps: seq<Step>): seq<Store.Step> {
    if steps == [] then []
    else
      var front, last := StoreSteps(steps[..|steps| - 1]), steps[|steps| - 1];
      if last.Storing? then front + [last.b] else front
  }

  /** What is proved of all runs of the bucket, and of the lock, holds of runs under the lock. */
  lemma {:induction false} BothRun(s: State, steps: seq<Step>)
    requires Run(s, steps).Some?
    ensures Lock.Run(s.lock, LockSteps(steps)) == Some(Run(s, steps).value.lock)
    ensures Store.Run(s.store, StoreSteps(steps)) == Some(Run(s, steps).value.store)
  {
    hide Lock.Apply;
    hide Store.Apply;
    hide Lock.Run;
    hide Store.Run;
    if steps == [] {
      Lock.RunNone(s.lock);
      StoreRunNone(s.store);
    } else {
      var before, last := steps[..|steps| - 1], steps[|steps| - 1];
      BothRun(s, before);
      match last
      case Locking(l) => Lock.RunSnoc(s.lock, LockSteps(before), l);
      case Storing(b) => GcSafety.RunSnoc(s.store, StoreSteps(before), b);
    }
  }

  lemma StoreRunNone(s: Store.State)
    ensures Store.Run(s, []) == Some(s)
  {
  }

  // ---- One run at a time ----

  /** Has held the lock, and does not any more. */
  predicate Past(p: Lock.Proc) { Lock.HasTerm(p) && !p.Holding? }

  lemma LockForward(s: Lock.State, step: Lock.Step, i: nat)
    requires i in s.procs && Lock.HasTerm(s.procs[i]) && Lock.Apply(s, step).Some?
    ensures var t := Lock.Apply(s, step).value;
            i in t.procs && Lock.HasTerm(t.procs[i]) && (Past(s.procs[i]) ==> Past(t.procs[i]))
  {
  }

  /** An instance that has held the lock gets no second term. */
  lemma {:induction false} OneTerm(s: State, steps: seq<Step>, a: nat, b: nat, i: nat)
    requires Run(s, steps).Some? && a <= b <= |steps| && AllRun(s, steps)
    requires var t := Run(s, steps[..a]).value.lock; i in t.procs && Lock.HasTerm(t.procs[i])
    ensures var t, u := Run(s, steps[..a]).value.lock, Run(s, steps[..b]).value.lock;
            i in u.procs && Lock.HasTerm(u.procs[i]) && (Past(t.procs[i]) ==> Past(u.procs[i]))
  {
    hide Past;
    hide Lock.HasTerm;
    if a < b {
      OneTerm(s, steps, a, b - 1, i);
      var u, step := Run(s, steps[..b - 1]).value, steps[b - 1];
      RunNext(s, steps, b);
      if step.Locking? {
        LockForward(u.lock, step.l, i);
      }
    }
  }

  ghost predicate AllRun(s: State, steps: seq<Step>) {
    forall k :: 0 <= k <= |steps| ==> Run(s, steps[..k]).Some?
  }

  lemma {:induction false} PrefixesRun(s: State, steps: seq<Step>)
    requires Run(s, steps).Some?
    ensures AllRun(s, steps)
  {
    hide Apply;
    assert steps[..|steps|] == steps;
    if steps != [] {
      var before := steps[..|steps| - 1];
      PrefixesRun(s, before);
      assert forall k :: 0 <= k < |steps| ==> before[..k] == steps[..k];
    }
  }

  lemma RunNext(s: State, steps: seq<Step>, k: nat)
    requires 0 < k <= |steps| && Run(s, steps[..k]).Some?
    ensures Run(s, steps[..k - 1]).Some?
    ensures Run(s, steps[..k]) == Apply(Run(s, steps[..k - 1]).value, steps[k - 1])
  {
    assert steps[..k][..k - 1] == steps[..k - 1];
  }

  /** No step of the run breaks the lock. */
  ghost predicate LockKept(s: State, steps: seq<Step>)
    requires Run(s, steps).Some?
  {
    forall k :: 0 <= k < |steps| && steps[k].Locking? ==>
      Run(s, steps[..k]).Some? && !GcLockExact.Breaks(Run(s, steps[..k]).value.lock, steps[k].l)
  }

  lemma {:induction false} KeptOwns(s: State, steps: seq<Step>, k: nat)
    requires Lock.Initial(s.lock) && Run(s, steps).Some? && AllRun(s, steps) && LockKept(s, steps) && k <= |steps|
    ensures GcLockExact.LiveOwns(Run(s, steps[..k]).value.lock)
  {
    hide GcLockExact.LiveOwns;
    hide GcLockExact.Breaks;
    if k == 0 {
      assert steps[..0] == [];
      GcLockExact.InitiallyOwned(s.lock);
    } else {
      KeptOwns(s, steps, k - 1);
      RunNext(s, steps, k);
      if steps[k - 1].Locking? {
        GcLockExact.BreaksExactly(Run(s, steps[..k - 1]).value.lock, steps[k - 1].l);
      }
    }
  }

  predicate WorksAt(steps: seq<Step>, k: nat, g: nat) {
    k < |steps| && steps[k].Storing? && Work(steps[k].b) && steps[k].b.g == g
  }

  lemma WorkerHolds(s: State, steps: seq<Step>, k: nat, g: nat)
    requires Run(s, steps).Some? && AllRun(s, steps) && WorksAt(steps, k, g)
    ensures Holds(Run(s, steps[..k]).value, g)
  {
    RunNext(s, steps, k + 1);
    hide Store.Apply;
  }

  /**
   * As long as nothing breaks the lock, GC runs work one at a time: between the first and the
   * last store call of one run, no other run makes any. Backups are under way as they like.
   */
  lemma OneAtATime(s: State, steps: seq<Step>, a: nat, b: nat, c: nat, g: nat, f: nat)
    requires Lock.Initial(s.lock) && Run(s, steps).Some? && LockKept(s, steps)
    requires a <= b <= c && WorksAt(steps, a, g) && WorksAt(steps, b, f) && WorksAt(steps, c, g)
    ensures f == g
  {
    PrefixesRun(s, steps);
    WorkerHolds(s, steps, a, g);
    WorkerHolds(s, steps, b, f);
    WorkerHolds(s, steps, c, g);
    OneTerm(s, steps, a, b, g);
    OneTerm(s, steps, b, c, g);
    KeptOwns(s, steps, b);
    hide Run;
    hide AllRun;
    hide LockKept;
  }
}

/**
 * The S3 lock of src/gc/lock.rs as a state machine. One step is one call to the store
 * (or a clock tick, a crash); steps of different instances interleave freely.
 */
module GcLock {
  import opened Wrappers

  const TTL := 60

  /** A GC run; `with_gc_lock` draws a new one for each. */
  type Id = nat

  /** The lock object's payload: who wrote it and when, or something unreadable. */
  datatype Body = Info(owner: Id, at: int) | Corrupt

  datatype Object = Object(body: Body, etag: nat)

  /** Where an instance stands. `acq` and `cert` number the states after its first and latest successful put. */
  datatype Proc =
    | Trying                                   // about to put with If-None-Match
    | Conflicted                               // the put met an object: about to read it
    | Vanished                                 // the read failed: about to put once more
    | Stale                                    // the read object is expired or corrupt: about to delete it
    | Broken                                   // deleted: about to put
    | Holding(etag: nat, acq: nat, cert: nat)
    | Releasing(acq: nat, cert: nat)           // heartbeat stopped: about to read the object
    | Removing(acq: nat, cert: nat)            // the read did not show another owner: about to delete
    | Lost(acq: nat, cert: nat)                // the `lost` token has fired
    | Ended(acq: nat, cert: nat)
    | GaveUp

  /** `tags` remembers which payload each etag was given for; `history` the owner after every step. */
  datatype State = State(
    obj: Option<Object>,
    tags: map<nat, Body>,
    now: int,
    procs: map<Id, Proc>,
    history: seq<Option<Id>>)

  /** Outcome of a conditional put; a lost reply has taken effect and is seen as an error. */
  datatype Reply = Stored | Refused | Failed | LostReply

  datatype Step =
    | Tick
    | Start(i: Id)
    | TryPut(i: Id, reply: Reply, etag: nat)
    | Inspect(i: Id, readable: bool)
    | DeleteStale(i: Id, effect: bool)
    | Refresh(i: Id, reply: Reply, etag: nat)
    | DeleteBatch(i: Id)
    | Finish(i: Id)
    | CheckOwner(i: Id, readable: bool)
    | DeleteOwn(i: Id, effect: bool)
    | Crash(i: Id)

  function Owner(o: Option<Object>): Option<Id> {
    if o.Some? && o.value.body.Info? then Some(o.value.body.owner) else None
  }

  predicate Expired(b: Body, now: int) {
    b.Corrupt? || now > b.at + TTL
  }

  /** An etag is new, or is given again for the very same payload. */
  predicate TagFor(s: State, b: Body, etag: nat) {
    etag in s.tags ==> s.tags[etag] == b
  }

  predicate Matches(s: State, etag: nat) {
    s.obj.Some? && s.obj.value.etag == etag
  }

  function Move(s: State, i: Id, p: Proc): State {
    s.(procs := s.procs[i := p])
  }

  /** The lock object as `i` writes it now. */
  function Put(s: State, i: Id, etag: nat): State {
    var b := Info(i, s.now);
    s.(obj := Some(Object(b, etag)), tags := s.tags[etag := b])
  }

  function Drop(s: State, effect: bool): State {
    if effect then s.(obj := None) else s
  }

  function ApplyTryPut(s: State, i: Id, reply: Reply, etag: nat): Option<State>
    requires i in s.procs
  {
    var p := s.procs[i];
    if !(p.Trying? || p.Vanished? || p.Broken?) then None
    else
      match reply
      case Stored =>
        if s.obj.None? && TagFor(s, Info(i, s.now), etag)
        then Some(Move(Put(s, i, etag), i, Holding(etag, |s.history|, |s.history|)))
        else None
      case Refused =>
        if s.obj.None? then None
        else Some(Move(s, i, if p.Trying? then Conflicted else Trying))
      case Failed => Some(Move(s, i, Trying))
      case LostReply =>
        if s.obj.None? && TagFor(s, Info(i, s.now), etag)
        then Some(Move(Put(s, i, etag), i, Trying))
        else None
  }

  function ApplyInspect(s: State, i: Id, readable: bool): Option<State>
    requires i in s.procs
  {
    if !s.procs[i].Conflicted? then None
    else if !readable || s.obj.None? then Some(Move(s, i, Vanished))
    else if Expired(s.obj.value.body, s.now) then Some(Move(s, i, Stale))
    else Some(Move(s, i, Trying))
  }

  function ApplyRefresh(s: State, i: Id, reply: Reply, etag: nat): Option<State>
    requires i in s.procs
  {
    var p := s.procs[i];
    if !p.Holding? then None
    else
      match reply
      case Stored =>
        if Matches(s, p.etag) && TagFor(s, Info(i, s.now), etag)
        then Some(Move(Put(s, i, etag), i, Holding(etag, p.acq, |s.history|)))
        else None
      case Refused => if Matches(s, p.etag) then None else Some(Move(s, i, Lost(p.acq, p.cert)))
      case Failed => Some(s)
      case LostReply =>
        if Matches(s, p.etag) && TagFor(s, Info(i, s.now), etag) then Some(Put(s, i, etag)) else None
  }

  function ApplyCheckOwner(s: State, i: Id, readable: bool): Option<State>
    requires i in s.procs
  {
    var p := s.procs[i];
    if !p.Releasing? then None
    else if readable && Owner(s.obj).Some? && Owner(s.obj).value != i
    then Some(Move(s, i, Ended(p.acq, p.cert)))
    else Some(Move(s, i, Removing(p.acq, p.cert)))
  }

  function ApplyCrash(s: State, i: Id): State
    requires i in s.procs
  {
    var p := s.procs[i];
    Move(s, i, if HasTerm(p) then Ended(p.acq, p.cert) else GaveUp)
  }

  /** What one step does before it is recorded; None when it is not enabled. */
  function Effect(s: State, step: Step): Option<State> {
    if step.Tick? then Some(s.(now := s.now + 1))
    else if step.Start? then
      if step.i in s.procs || Some(step.i) in s.history
         || exists e :: e in s.tags && s.tags[e].Info? && s.tags[e].owner == step.i then None
      else Some(Move(s, step.i, Trying))
    else if step.i !in s.procs then None
    else
      var p := s.procs[step.i];
      match step
      case TryPut(i, reply, etag) => ApplyTryPut(s, i, reply, etag)
      case Inspect(i, readable) => ApplyInspect(s, i, readable)
      case DeleteStale(i, effect) => if p.Stale? then Some(Move(Drop(s, effect), i, Broken)) else None
      case Refresh(i, reply, etag) => ApplyRefresh(s, i, reply, etag)
      case DeleteBatch(i) => if p.Holding? then Some(s) else None
      case Finish(i) => if p.Holding? then Some(Move(s, i, Releasing(p.acq, p.cert))) else None
      case CheckOwner(i, readable) => ApplyCheckOwner(s, i, readable)
      case DeleteOwn(i, effect) =>
        if p.Removing? then Some(Move(Drop(s, effect), i, Ended(p.acq, p.cert))) else None
      case Crash(i) => Some(ApplyCrash(s, i))
  }

  function Apply(s: State, step: Step): Option<State> {
    var t :- Effect(s, step);
    Some(t.(history := s.history + [Owner(t.obj)]))
  }

  /** The state at the end of a run, None when a step was not enabled. */
  function Run(s: State, steps: seq<Step>): Option<State> {
    if steps == [] then Some(s)
    else
      var last := |steps| - 1;
      var t :- Run(s, steps[..last]);
      Apply(t, steps[last])
  }

  /** No instance has started; an object of some earlier instance may be there. */
  predicate Initial(s: State) {
    && s.procs == map[] && s.history == [Owner(s.obj)]
    && (s.obj.Some? ==> s.obj.value.etag in s.tags && s.tags[s.obj.value.etag] == s.obj.value.body)
  }

  // ---- Certified ownership ----

  /** The instance has held the lock, from the state numbered `acq` to at least `cert`. */
  predicate HasTerm(p: Proc) {
    p.Holding? || p.Releasing? || p.Removing? || p.Lost? || p.Ended?
  }

  predicate OwnedThroughout(s: State, i: Id, from: nat, to: int) {
    to < |s.history| && forall k :: from <= k <= to ==> s.history[k] == Some(i)
  }

  predicate TermHolds(s: State, i: Id)
    requires i in s.procs
  {
    var p := s.procs[i];
    HasTerm(p) ==> p.acq <= p.cert < |s.history| && OwnedThroughout(s, i, p.acq, p.cert)
  }

  /** Only the holder's own puts give its payload back, so seeing it means nobody came between. */
  predicate HolderHolds(s: State, i: Id)
    requires i in s.procs
  {
    var p := s.procs[i];
    p.Holding? ==>
      && p.etag in s.tags && s.tags[p.etag].Info? && s.tags[p.etag].owner == i
      && (Owner(s.obj) == Some(i) ==> OwnedThroughout(s, i, p.cert, |s.history| - 1))
  }

  predicate Certified(s: State) {
    && |s.history| >= 1 && s.history[|s.history| - 1] == Owner(s.obj)
    && (s.obj.Some? ==> s.obj.value.etag in s.tags && s.tags[s.obj.value.etag] == s.obj.value.body)
    && forall i :: i in s.procs ==> TermHolds(s, i) && HolderHolds(s, i)
  }

  /** A step puts `i` in possession of the object only if `i` took it. */
  lemma OwnerChange(s: State, step: Step, i: Id)
    requires Certified(s) && Apply(s, step).Some?
    requires Owner(Apply(s, step).value.obj) == Some(i)
    ensures Owner(s.obj) == Some(i) || ((step.TryPut? || step.Refresh?) && step.i == i)
  {
  }

  lemma CertifiedOthers(s: State, step: Step, i: Id)
    requires Certified(s) && Apply(s, step).Some? && i in s.procs
    requires Apply(s, step).value.procs[i] == s.procs[i]
    ensures TermHolds(Apply(s, step).value, i) && HolderHolds(Apply(s, step).value, i)
  {
    assert TermHolds(s, i) && HolderHolds(s, i);
    if Owner(Apply(s, step).value.obj) == Some(i) {
      OwnerChange(s, step, i);
    }
  }

  lemma CertifiedMover(s: State, step: Step, i: Id)
    requires Certified(s) && Apply(s, step).Some? && i in Apply(s, step).value.procs
    requires i !in s.procs || Apply(s, step).value.procs[i] != s.procs[i]
    ensures TermHolds(Apply(s, step).value, i) && HolderHolds(Apply(s, step).value, i)
  {
    if i in s.procs {
      assert TermHolds(s, i) && HolderHolds(s, i);
    }
  }

  lemma CertifiedStep(s: State, step: Step)
    requires Certified(s) && Apply(s, step).Some?
    ensures Certified(Apply(s, step).value)
  {
    var t := Apply(s, step).value;
    forall i | i in t.procs
      ensures TermHolds(t, i) && HolderHolds(t, i)
    {
      if i in s.procs && t.procs[i] == s.procs[i] {
        CertifiedOthers(s, step, i);
      } else {
        CertifiedMover(s, step, i);
      }
    }
  }

  lemma {:induction false} CertifiedRun(s: State, steps: seq<Step>)
    requires Initial(s) && Run(s, steps).Some?
    ensures Certified(Run(s, steps).value)
  {
    if steps != [] {
      var last := |steps| - 1;
      CertifiedRun(s, steps[..last]);
      CertifiedStep(Run(s, steps[..last]).value, steps[last]);
    }
  }

  /**
   * In every run, racing `break_stale` and `release` included: from its first to its
   * latest successful put the lock object is the instance's own in every single state,
   * so the terms of two instances never overlap.
   */
  lemma CertifiedOwnership(s: State, steps: seq<Step>, i: Id)
    requires Initial(s) && Run(s, steps).Some?
    ensures var t := Run(s, steps).value;
            i in t.procs && HasTerm(t.procs[i]) ==>
              && OwnedThroughout(t, i, t.procs[i].acq, t.procs[i].cert)
              && forall j :: j in t.procs && j != i && HasTerm(t.procs[j]) ==>
                   t.procs[j].cert < t.procs[i].acq || t.procs[i].cert < t.procs[j].acq
  {
    var t := Run(s, steps).value;
    CertifiedRun(s, steps);
    if i in t.procs && HasTerm(t.procs[i]) {
      assert TermHolds(t, i);
      forall j | j in t.procs && j != i && HasTerm(t.procs[j])
        ensures t.procs[j].cert < t.procs[i].acq || t.procs[i].cert < t.procs[j].acq
      {
        assert TermHolds(t, j);
        var k := if t.procs[i].acq < t.procs[j].acq then t.procs[j].acq else t.procs[i].acq;
        assert t.procs[i].acq <= k <= t.procs[i].cert ==> t.history[k] == Some(i);
        assert t.procs[j].acq <= k <= t.procs[j].cert ==> t.history[k] == Some(j);
      }
    }
  }

  // ---- Conditional mutual exclusion ----

  /** The instance works, or cleans up, in the belief that the lock is its own. */
  predicate Live(p: Proc) {
    p.Holding? || p.Releasing? || p.Removing?
  }

  /** Inside `break_stale` after its read, or inside `release` after its read. */
  predicate InWindow(p: Proc) {
    p.Stale? || p.Broken? || p.Removing?
  }

  predicate IsPut(step: Step) {
    (step.TryPut? || step.Refresh?) && (step.reply.Stored? || step.reply.LostReply?)
  }

  /**
   * What the protocol relies on: time does not pass the expiry of a live instance's
   * lock, and no put lands inside another instance's read-then-delete window.
   */
  predicate Guarded(s: State, step: Step) {
    && (step.Tick? ==>
          forall i :: i in s.procs && Live(s.procs[i]) && Owner(s.obj) == Some(i) ==>
            !Expired(s.obj.value.body, s.now + 1))
    && (IsPut(step) ==> forall j :: j in s.procs && j != step.i ==> !InWindow(s.procs[j]))
  }

  predicate GuardedRun(s: State, steps: seq<Step>)
    requires Run(s, steps).Some?
  {
    forall k :: 0 <= k < |steps| ==> Run(s, steps[..k]).Some? && Guarded(Run(s, steps[..k]).value, steps[k])
  }

  predicate Exclusive(s: State) {
    && (forall i :: i in s.procs && Live(s.procs[i]) ==>
          Owner(s.obj) == Some(i) && !Expired(s.obj.value.body, s.now))
    && (forall i :: i in s.procs && (s.procs[i].Stale? || s.procs[i].Broken?) ==>
          s.obj.None? || Expired(s.obj.value.body, s.now))
  }

  lemma ExclusivePut(s: State, step: Step)
    requires Exclusive(s) && Apply(s, step).Some? && Guarded(s, step) && (step.TryPut? || step.Refresh?)
    ensures Exclusive(Apply(s, step).value)
  {
    hide TagFor;
    hide ApplyInspect;
    hide ApplyCheckOwner;
    hide ApplyCrash;
  }

  lemma ExclusiveOther(s: State, step: Step)
    requires Exclusive(s) && Apply(s, step).Some? && Guarded(s, step) && !step.TryPut? && !step.Refresh?
    ensures Exclusive(Apply(s, step).value)
  {
    hide ApplyTryPut;
    hide ApplyRefresh;
    hide TagFor;
    hide Matches;
  }

  lemma ExclusiveStep(s: State, step: Step)
    requires Exclusive(s) && Apply(s, step).Some? && Guarded(s, step)
    ensures Exclusive(Apply(s, step).value)
  {
    hide *;
    if step.TryPut? || step.Refresh? {
      ExclusivePut(s, step);
    } else {
      ExclusiveOther(s, step);
    }
  }

  lemma {:induction false} ExclusiveRun(s: State, steps: seq<Step>)
    requires Initial(s) && Run(s, steps).Some? && GuardedRun(s, steps)
    ensures Exclusive(Run(s, steps).value)
  {
    if steps != [] {
      var last := |steps| - 1;
      var before := steps[..last];
      assert forall k :: 0 <= k < last ==> before[..k] == steps[..k];
      ExclusiveRun(s, before);
      assert Guarded(Run(s, before).value, steps[last]);
      ExclusiveStep(Run(s, before).value, steps[last]);
    }
  }

  /**
   * In every guarded run at most one instance is live, and an instance that starts a
   * delete batch is the owner of the lock object at that moment, its `lost` token unfired.
   */
  lemma MutualExclusion(s: State, steps: seq<Step>, i: Id)
    requires Initial(s) && Run(s, steps).Some? && GuardedRun(s, steps)
    ensures var t := Run(s, steps).value;
            && (i in t.procs && Live(t.procs[i]) ==>
                  forall j :: j in t.procs && j != i ==> !Live(t.procs[j]))
            && (Apply(t, DeleteBatch(i)).Some? ==>
                  && !t.procs[i].Lost? && Owner(t.obj) == Some(i)
                  && forall j :: j in t.procs && j != i ==> Apply(t, DeleteBatch(j)).None?)
  {
    ExclusiveRun(s, steps);
  }

  // ---- Without the guard ----

  lemma RunSnoc(s: State, steps: seq<Step>, step: Step)
    ensures Run(s, steps + [step]) == if Run(s, steps).None? then None else Apply(Run(s, steps).value, step)
  {
    assert (steps + [step])[..|steps|] == steps;
  }

  /** An expired object of a crashed instance, and two instances that find it. */
  const ABANDONED := State(Some(Object(Info(0, 0), 0)), map[0 := Info(0, 0)], 100, map[], [Some(0)])

  const RACE: seq<Step> := [
    Start(1), Start(2),
    TryPut(1, Refused, 0), Inspect(1, true),
    TryPut(2, Refused, 0), Inspect(2, true),
    DeleteStale(1, true), TryPut(1, Stored, 1),
    DeleteStale(2, true), TryPut(2, Stored, 2)]

  /** A history in which the object stays that of instance 0. */
  function Owned(states: nat): (h: seq<Option<Id>>)
    ensures |h| == states && forall o :: o in h ==> o == Some(0)
  {
    seq(states, _ => Some(0))
  }

  lemma OwnedNext(n: nat)
    ensures Owned(n) + [Some(0)] == Owned(n + 1)
  {
  }

  /** Nothing but the instances' standings has changed after `k` steps. */
  predicate Standing(k: nat, procs: map<Id, Proc>)
    requires k <= |RACE|
  {
    Run(ABANDONED, RACE[..k]) == Some(ABANDONED.(procs := procs, history := Owned(k + 1)))
  }

  /** A step after which only `i` stands elsewhere. */
  lemma StandingNext(k: nat, procs: map<Id, Proc>, i: Id, p: Proc)
    requires k < |RACE| && Standing(k, procs)
    requires Effect(ABANDONED.(procs := procs, history := Owned(k + 1)), RACE[k])
             == Some(ABANDONED.(procs := procs[i := p], history := Owned(k + 1)))
    ensures Standing(k + 1, procs[i := p])
  {
    hide Run;
    hide Effect;
    hide Owned;
    RunPrefix(k + 1);
    OwnedNext(k + 1);
  }

  /** Both instances run, and the first has found the lock taken. */
  lemma BothTrying()
    ensures Standing(3, map[1 := Conflicted, 2 := Trying])
  {
    RunNone(ABANDONED);
    assert RACE[..0] == [] && Owned(1) == [Some(0)];
    assert Standing(0, map[]);
    hide Owned;
    hide Run;
    hide Standing;
    StandingNext(0, map[], 1, Trying);
    assert map[][1 := Trying] == map[1 := Trying];
    StandingNext(1, map[1 := Trying], 2, Trying);
    assert map[1 := Trying][2 := Trying] == map[1 := Trying, 2 := Trying];
    StandingNext(2, map[1 := Trying, 2 := Trying], 1, Conflicted);
    assert map[1 := Trying, 2 := Trying][1 := Conflicted] == map[1 := Conflicted, 2 := Trying];
  }

  /** Both instances have read the abandoned object and are about to delete it. */
  lemma BothStale()
    ensures Run(ABANDONED, RACE[..6]) ==
            Some(ABANDONED.(procs := map[1 := Stale, 2 := Stale], history := Owned(7)))
  {
    hide Owned;
    hide Run;
    hide Standing;
    BothTrying();
    StandingNext(3, map[1 := Conflicted, 2 := Trying], 1, Stale);
    assert map[1 := Conflicted, 2 := Trying][1 := Stale] == map[1 := Stale, 2 := Trying];
    StandingNext(4, map[1 := Stale, 2 := Trying], 2, Conflicted);
    assert map[1 := Stale, 2 := Trying][2 := Conflicted] == map[1 := Stale, 2 := Conflicted];
    StandingNext(5, map[1 := Stale, 2 := Conflicted], 2, Stale);
    assert map[1 := Stale, 2 := Conflicted][2 := Stale] == map[1 := Stale, 2 := Stale];
    StandingMeans(6, map[1 := Stale, 2 := Stale]);
  }

  lemma StandingMeans(k: nat, procs: map<Id, Proc>)
    requires k <= |RACE| && Standing(k, procs)
    ensures Run(ABANDONED, RACE[..k]) == Some(ABANDONED.(procs := procs, history := Owned(k + 1)))
  {
  }

  lemma RunNone(s: State)
    ensures Run(s, []) == Some(s)
  {
  }

  /** Plain mutual exclusion is false: both break the same stale lock and both hold it. */
  lemma TwoHolders()
    ensures Initial(ABANDONED) && Run(ABANDONED, RACE).Some?
    ensures var t := Run(ABANDONED, RACE).value;
            && 1 in t.procs && t.procs[1].Holding? && 2 in t.procs && t.procs[2].Holding?
            && Apply(t, DeleteBatch(1)).Some? && Apply(t, DeleteBatch(2)).Some?
  {
    hide Run;
    hide Owned;
    BothStale();
    RunPrefix(7); RunPrefix(8); RunPrefix(9); RunPrefix(10);
    assert RACE[..10] == RACE;
  }

  lemma RunPrefix(k: nat)
    requires 0 < k <= |RACE|
    ensures Run(ABANDONED, RACE[..k]) ==
            if Run(ABANDONED, RACE[..k - 1]).None? then None
            else Apply(Run(ABANDONED, RACE[..k - 1]).value, RACE[k - 1])
  {
    RunSnoc(ABANDONED, RACE[..k - 1], RACE[k - 1]);
    assert RACE[..k - 1] + [RACE[k - 1]] == RACE[..k];
  }
}

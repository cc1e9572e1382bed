/**
 * The operations of src/gc/lock.rs as their callers run them: every call to the store is
 * one step of the protocol, and other instances may run any steps of theirs in between.
 */
module GcLockOps {
  import opened Wrappers
  import opened GcLock

  datatype StoreError = StoreError

  /** A step that is not `i`'s own. */
  predicate Foreign(step: Step, i: Id) { step.Tick? || step.i != i }

  /** About to put with If-None-Match. */
  predicate BeforePut(p: Proc) { p.Trying? || p.Vanished? || p.Broken? }

  lemma ForeignKeeps(s: State, step: Step, i: Id)
    requires Foreign(step, i) && i in s.procs && Apply(s, step).Some?
    ensures i in Apply(s, step).value.procs && Apply(s, step).value.procs[i] == s.procs[i]
  {
  }

  /** What `i` itself has done, in order. */
  function Own(steps: seq<Step>, i: Id): seq<Step> {
    if steps == [] then []
    else
      var last := |steps| - 1;
      Own(steps[..last], i) + if Foreign(steps[last], i) then [] else [steps[last]]
  }

  lemma OwnNext(steps: seq<Step>, step: Step, i: Id)
    ensures Own(steps + [step], i) == Own(steps, i) + if Foreign(step, i) then [] else [step]
  {
    assert (steps + [step])[..|steps|] == steps;
  }

  /** The reply to a conditional put and what the caller makes of it. */
  predicate Answers(step: Step, r: Result<Option<nat>, StoreError>)
    requires step.TryPut? || step.Refresh?
  {
    match r
    case Ok(Some(etag)) => step.reply == Stored && step.etag == etag
    case Ok(None) => step.reply == Refused
    case Err(_) => step.reply == Failed || step.reply == LostReply
  }

  /**
   * The calls of one `acquire`: a put; after a conflict a read, and then another put if nothing
   * was read, or the delete of what was read and another put if that was stale.
   */
  predicate AcquireCalls(calls: seq<Step>, i: Id, r: Result<Option<nat>, StoreError>) {
    && |calls| >= 1 && calls[0].TryPut?
    && (|calls| == 1 <==> calls[0].reply != Refused)
    && (|calls| == 1 ==> Answers(calls[0], r))
    && (|calls| >= 2 ==> calls[1].Inspect?)
    && (|calls| == 2 ==> calls[1].readable && r == Ok(None))
    && (|calls| >= 3 ==>
          && calls[|calls| - 1].TryPut? && Answers(calls[|calls| - 1], r)
          && (|calls| == 3 || (|calls| == 4 && calls[1].readable && calls[2].DeleteStale?)))
  }

  /** How many conditional creates there are among the calls. */
  function Puts(calls: seq<Step>): nat {
    if calls == [] then 0
    else Puts(calls[..|calls| - 1]) + if calls[|calls| - 1].TryPut? then 1 else 0
  }

  lemma {:induction false} PutsConcat(a: seq<Step>, b: seq<Step>)
    ensures Puts(a + b) == Puts(a) + Puts(b)
    decreases |b|
  {
    if b == [] {
      assert a + b == a;
    } else {
      PutsConcat(a, b[..|b| - 1]);
      assert (a + b)[..|a + b| - 1] == a + b[..|b| - 1];
    }
  }

  lemma AcquirePuts(calls: seq<Step>, i: Id, r: Result<Option<nat>, StoreError>)
    requires AcquireCalls(calls, i, r)
    ensures 1 <= Puts(calls) <= 2
  {
    var n := |calls|;
    assert calls[..1] == [calls[0]] && Puts(calls[..1]) == 1 by {
      assert calls[..1][..0] == [];
    }
    if n >= 2 {
      assert calls[..2][..1] == calls[..1] && Puts(calls[..2]) == 1;
    }
    if n >= 3 {
      assert calls[..3][..2] == calls[..2];
    }
    if n == 4 {
      assert Puts(calls[..3]) == 1;
      assert calls[..4][..3] == calls[..3];
    }
    assert calls[..n] == calls;
  }

  /** A lock that has been read is broken exactly when it is corrupt or older than a minute. */
  lemma StaleExactly(s: State, i: Id)
    requires i in s.procs && s.procs[i] == Conflicted && s.obj.Some?
    ensures Apply(s, Inspect(i, true)).Some?
    ensures Apply(s, Inspect(i, true)).value.procs[i] == Stale <==>
            s.obj.value.body.Corrupt? || s.now > s.obj.value.body.at + 60
  {
  }

  class Store {
    var s: State
    ghost const first: State
    ghost var trace: seq<Step>

    /** The present state is the end of a run of the protocol. */
    ghost predicate Valid()
      reads this
    {
      Initial(first) && Run(first, trace) == Some(s)
    }

    constructor (start: State)
      requires Initial(start)
      ensures Valid() && s == start
    {
      s := start;
      first, trace := start, [];
    }

    method Call(step: Step)
      requires Valid() && Apply(s, step).Some?
      modifies this
      ensures Valid() && s == Apply(old(s), step).value && trace == old(trace) + [step]
    {
      RunSnoc(first, trace, step);
      s := Apply(s, step).value;
      trace := trace + [step];
    }

    /** Anything the others do meanwhile. */
    method Others(i: Id)
      requires Valid() && i in s.procs
      modifies this
      ensures Valid() && old(trace) <= trace && Own(trace, i) == Own(old(trace), i)
      ensures i in s.procs && s.procs[i] == old(s.procs[i])
    {
      hide Own;
      var rounds: nat := *;
      while rounds > 0
        invariant Valid() && old(trace) <= trace && Own(trace, i) == Own(old(trace), i)
        invariant i in s.procs && s.procs[i] == old(s.procs[i])
      {
        var step: Step := *;
        if Foreign(step, i) && Apply(s, step).Some? {
          ForeignKeeps(s, step, i);
          OwnNext(trace, step, i);
          Call(step);
        }
        rounds := rounds - 1;
      }
    }

    /** `try_put`: one conditional create; an etag comes back exactly when it took effect and was confirmed. */
    method TryPutNow(i: Id) returns (r: Result<Option<nat>, StoreError>, ghost call: Step)
      requires Valid() && i in s.procs && BeforePut(s.procs[i])
      modifies this
      ensures Valid() && old(trace) <= trace && i in s.procs
      ensures Own(trace, i) == Own(old(trace), i) + [call]
      ensures call.TryPut? && Answers(call, r)
      ensures match r
              case Ok(Some(etag)) =>
                s.procs[i].Holding? && s.procs[i].etag == etag && s.obj == Some(Object(Info(i, s.now), etag))
              case Ok(None) => s.procs[i] == if old(s.procs[i].Trying?) then Conflicted else Trying
              case Err(_) => s.procs[i] == Trying
    {
      hide Own;
      hide Run;
      Others(i);
      assert Apply(s, TryPut(i, Failed, 0)).Some?;
      var reply, etag :| Apply(s, TryPut(i, reply, etag)).Some?;
      call := TryPut(i, reply, etag);
      OwnNext(trace, call, i);
      Call(TryPut(i, reply, etag));
      r := match reply
           case Stored => Ok(Some(etag))
           case Refused => Ok(None)
           case _ => Err(StoreError);
    }

    /** `break_stale`: a delete, whose own outcome is ignored, and a put. */
    method BreakStale(i: Id) returns (r: Result<Option<nat>, StoreError>, ghost calls: seq<Step>)
      requires Valid() && i in s.procs && s.procs[i].Stale?
      modifies this
      ensures Valid() && old(trace) <= trace && i in s.procs
      ensures Own(trace, i) == Own(old(trace), i) + calls
      ensures |calls| == 2 && calls[0].DeleteStale? && calls[1].TryPut? && Answers(calls[1], r)
      ensures Outcome(i, r)
    {
      hide Own;
      hide Run;
      Others(i);
      var effect: bool := *;
      OwnNext(trace, DeleteStale(i, effect), i);
      Call(DeleteStale(i, effect));
      ghost var call;
      r, call := TryPutNow(i);
      calls := [DeleteStale(i, effect), call];
    }

    /** The lock is held, with the etag of the object just written, or the next attempt can start. */
    ghost predicate Outcome(i: Id, r: Result<Option<nat>, StoreError>)
      reads this
    {
      && i in s.procs
      && match r
         case Ok(Some(etag)) =>
           s.procs[i].Holding? && s.procs[i].etag == etag && s.obj == Some(Object(Info(i, s.now), etag))
         case _ => s.procs[i] == Trying
    }

    /** `acquire`: the lock is held exactly when an etag comes back. */
    method Acquire(i: Id) returns (r: Result<Option<nat>, StoreError>, ghost calls: seq<Step>)
      requires Valid() && i in s.procs && s.procs[i].Trying?
      modifies this
      ensures Valid() && old(trace) <= trace && Outcome(i, r)
      ensures Own(trace, i) == Own(old(trace), i) + calls && AcquireCalls(calls, i, r)
    {
      hide Own;
      hide Run;
      ghost var call, more;
      r, call := TryPutNow(i);
      calls := [call];
      if r.Err? || r.value.Some? {
        return;
      }
      Others(i);
      var readable: bool := *;
      var seen := if readable then s.obj else None;
      OwnNext(trace, Inspect(i, seen.Some?), i);
      Call(Inspect(i, seen.Some?));
      calls := calls + [Inspect(i, seen.Some?)];
      if seen.None? {
        r, call := TryPutNow(i);
        calls := calls + [call];
      } else if s.procs[i].Stale? {
        r, more := BreakStale(i);
        calls := calls + more;
      } else {
        r := Ok(None);
      }
    }

    /** `acquire_with_retry`: unless it gets the lock, it makes all its attempts. */
    method AcquireWithRetry(i: Id, attempts: nat)
        returns (r: Result<Option<nat>, StoreError>, ghost calls: seq<Step>, ghost latest: seq<Step>)
      requires Valid() && i in s.procs && s.procs[i].Trying?
      modifies this
      ensures Valid() && old(trace) <= trace && Outcome(i, r)
      ensures Own(trace, i) == Own(old(trace), i) + calls
      ensures Puts(calls) <= 2 * attempts
      ensures r.Err? || r.value.None? ==> Puts(calls) >= attempts
      ensures if attempts == 0 then r == Ok(None)
              else |latest| <= |calls| && calls[|calls| - |latest|..] == latest && AcquireCalls(latest, i, r)
    {
      hide Own;
      hide Run;
      hide Puts;
      hide AcquireCalls;
      r, calls, latest := Ok(None), [], [];
      NoPuts();
      for attempt := 0 to attempts
        invariant Valid() && old(trace) <= trace && Outcome(i, r) && (r.Ok? ==> r.value.None?)
        invariant Own(trace, i) == Own(old(trace), i) + calls
        invariant attempt <= Puts(calls) <= 2 * attempt
        invariant if attempt == 0 then r == Ok(None)
                  else |latest| <= |calls| && calls[|calls| - |latest|..] == latest && AcquireCalls(latest, i, r)
      {
        r, latest := Acquire(i);
        AcquirePuts(latest, i, r);
        PutsConcat(calls, latest);
        calls := calls + latest;
        if r.Ok? && r.value.Some? {
          return;
        }
      }
    }

    /**
     * `refresh`: one conditional replace. A success certifies that the object was the instance's
     * own in every state since its previous put; None means the lock is lost.
     */
    method RefreshNow(i: Id) returns (r: Result<Option<nat>, StoreError>, ghost call: Step)
      requires Valid() && i in s.procs && s.procs[i].Holding?
      modifies this
      ensures Valid() && old(trace) <= trace && i in s.procs
      ensures Own(trace, i) == Own(old(trace), i) + [call]
      ensures call.Refresh? && Answers(call, r)
      ensures HasTerm(s.procs[i]) && s.procs[i].acq == old(s.procs[i].acq)
      ensures match r
              case Ok(Some(etag)) =>
                && s.procs[i].Holding? && s.procs[i].etag == etag && s.obj == Some(Object(Info(i, s.now), etag))
                && s.procs[i].cert == |s.history| - 1 > old(s.procs[i].cert)
                && OwnedThroughout(s, i, old(s.procs[i].cert), |s.history| - 1)
              case Ok(None) => s.procs[i].Lost?
              case Err(_) => s.procs[i] == old(s.procs[i])
    {
      hide Own;
      hide Run;
      Others(i);
      assert Apply(s, Refresh(i, Failed, 0)).Some?;
      CertifiedRun(first, trace);
      assert TermHolds(s, i);
      var reply, etag :| Apply(s, Refresh(i, reply, etag)).Some?;
      call := Refresh(i, reply, etag);
      OwnNext(trace, call, i);
      Call(Refresh(i, reply, etag));
      CertifiedRun(first, trace);
      assert TermHolds(s, i);
      r := match reply
           case Stored => Ok(Some(etag))
           case Refused => Ok(None)
           case _ => Err(StoreError);
    }

    /**
     * `spawn_heartbeat`: refreshes until cancelled or lost; an error keeps the old etag. Only a
     * refused refresh ends it early. The lock was the instance's own in every state from the
     * first to the latest success.
     */
    method Heartbeat(i: Id, beats: nat) returns (lost: bool, ghost calls: seq<Step>)
      requires Valid() && i in s.procs && s.procs[i].Holding?
      modifies this
      ensures Valid() && old(trace) <= trace && i in s.procs
      ensures Own(trace, i) == Own(old(trace), i) + calls
      ensures |calls| <= beats && (!lost ==> |calls| == beats) && (lost ==> calls != [])
      ensures forall k :: 0 <= k < |calls| ==>
                calls[k].Refresh? && (calls[k].reply == Refused <==> lost && k == |calls| - 1)
      ensures if lost then s.procs[i].Lost? else s.procs[i].Holding?
      ensures s.procs[i].acq == old(s.procs[i].acq)
      ensures OwnedThroughout(s, i, s.procs[i].acq, s.procs[i].cert)
    {
      hide Own;
      hide Run;
      lost, calls := false, [];
      var k := 0;
      while k < beats && !lost
        invariant Valid() && old(trace) <= trace && i in s.procs
        invariant Own(trace, i) == Own(old(trace), i) + calls && |calls| == k <= beats && (lost ==> calls != [])
        invariant forall k :: 0 <= k < |calls| ==>
                    calls[k].Refresh? && (calls[k].reply == Refused <==> lost && k == |calls| - 1)
        invariant HasTerm(s.procs[i]) && s.procs[i].acq == old(s.procs[i].acq)
        invariant if lost then s.procs[i].Lost? else s.procs[i].Holding?
      {
        var r;
        ghost var call;
        r, call := RefreshNow(i);
        calls := calls + [call];
        lost := r.Ok? && r.value.None?;
        k := k + 1;
      }
      CertifiedRun(first, trace);
      assert TermHolds(s, i);
    }

    /**
     * `release`: reads the object, and deletes it unless it has seen that it is another's.
     * `at` is the moment of the read.
     */
    method Release(i: Id) returns (ghost at: nat, ghost calls: seq<Step>)
      requires Valid() && i in s.procs && s.procs[i].Releasing?
      modifies this
      ensures Valid() && old(trace) <= trace && i in s.procs
      ensures s.procs[i] == Ended(old(s.procs[i].acq), old(s.procs[i].cert))
      ensures Own(trace, i) == Own(old(trace), i) + calls
      ensures at < |trace| && trace[at].CheckOwner? && Run(first, trace[..at]).Some?
      ensures var seen := Run(first, trace[..at]).value.obj;
              if trace[at].readable && seen.Some? && seen.value.body.Info? && seen.value.body.owner != i
              then calls == [trace[at]]
              else
                && |calls| == 2 && calls[0] == trace[at] && calls[1].DeleteOwn?
                && (calls[1].effect ==> s.obj == None)
    {
      hide Own;
      hide Run;
      Others(i);
      var readable: bool := *;
      at, calls := |trace|, [CheckOwner(i, readable)];
      ghost var before := trace;
      OwnNext(trace, CheckOwner(i, readable), i);
      Call(CheckOwner(i, readable));
      assert trace[..at] == before;
      ghost var mid := trace;
      if s.procs[i].Ended? {
        return;
      }
      Others(i);
      var effect: bool := *;
      OwnNext(trace, DeleteOwn(i, effect), i);
      Call(DeleteOwn(i, effect));
      calls := calls + [DeleteOwn(i, effect)];
      assert trace[..at] == mid[..at] && trace[at] == mid[at];
    }
  }

  lemma NoPuts()
    ensures Puts([]) == 0
  {
  }
}

/** The multipart pipeline of `storage.rs`: a reader task, a bounded channel, concurrent part uploads. */
module Multipart {
  import opened Wrappers
  import opened Bytes
  import opened Streams

  const READ_AHEAD := 4

  datatype Part = Part(number: nat, data: seq<u8>)

  datatype UploadError = ReaderFailed | PartFailed | CompleteFailed

  // ---- What a stream is cut into ----

  /** The parts of `s`, `size` bytes each but for the last, numbered from `first`. */
  function Cut(s: seq<u8>, size: nat, first: nat): seq<Part>
    requires size > 0
  {
    if s == [] then []
    else if |s| < size then [Part(first, s)]
    else [Part(first, s[..size])] + Cut(s[size..], size, first + 1)
  }

  function Joined(ps: seq<Part>): seq<u8> {
    if ps == [] then [] else ps[0].data + Joined(ps[1..])
  }

  /** Cutting loses nothing, numbers consecutively, and leaves only the last part short. */
  lemma {:induction false} CutShape(s: seq<u8>, size: nat, first: nat)
    requires size > 0
    ensures Joined(Cut(s, size, first)) == s
    ensures forall i :: 0 <= i < |Cut(s, size, first)| ==>
              && Cut(s, size, first)[i].number == first + i
              && 0 < |Cut(s, size, first)[i].data| <= size
              && (i < |Cut(s, size, first)| - 1 ==> |Cut(s, size, first)[i].data| == size)
    ensures s != [] <==> Cut(s, size, first) != []
  {
    if 0 < |s| < size {
      assert Joined([Part(first, s)][1..]) == [];
    } else if s != [] {
      CutShape(s[size..], size, first + 1);
      assert Cut(s, size, first)[1..] == Cut(s[size..], size, first + 1);
    }
  }

  lemma NothingToCut(size: nat, first: nat)
    requires size > 0
    ensures Cut([], size, first) == []
  {
  }

  lemma CutNext(data: seq<u8>, rest: seq<u8>, size: nat, first: nat)
    requires size > 0 && 0 < |data| <= size && (|data| < size ==> rest == [])
    ensures Cut(data + rest, size, first) == [Part(first, data)] + Cut(rest, size, first + 1)
  {
    if |data| == size {
      assert (data + rest)[..size] == data && (data + rest)[size..] == rest;
    } else {
      assert data + rest == data;
    }
  }

  // ---- The reader task ----

  datatype TaskState = Running | Finished | Failed

  lemma Appended(sent: seq<Part>, part: Part, rest: seq<Part>)
    ensures sent + ([part] + rest) == sent + [part] + rest
  {
  }

  class Reader {
    const source: Source
    const chunkSize: nat
    ghost const input: seq<u8>
    var partNumber: nat
    var channel: seq<Part>
    var state: TaskState
    ghost var sent: seq<Part>
    /** How many reads of the stream had failed before. */
    ghost const earlier: nat

    ghost predicate Valid()
      reads this, source
    {
      && chunkSize > 0
      && |channel| <= READ_AHEAD
      && partNumber == |sent|
      && (forall i :: 0 <= i < |sent| ==> sent[i].number == i + 1)
      && |channel| <= |sent| && channel == sent[|sent| - |channel|..]
      && (state.Running? ==> Cut(input, chunkSize, 1) == sent + Cut(source.rest, chunkSize, partNumber + 1))
      && (state.Finished? ==> Cut(input, chunkSize, 1) == sent)
      && source.faults >= earlier && (state.Failed? <==> source.faults > earlier)
    }

    constructor (source: Source, chunkSize: nat)
      requires chunkSize > 0
      ensures Valid() && this.source == source && this.chunkSize == chunkSize && input == source.rest
      ensures state == Running && sent == []
    {
      this.source := source;
      earlier := source.faults;
      this.chunkSize := chunkSize;
      input := source.rest;
      partNumber := 0;
      channel := [];
      state := Running;
      sent := [];
    }

    /** Reads until the buffer is full or the stream ends; nothing comes back exactly when a read fails. */
    method Fill() returns (buf: Option<seq<u8>>)
      modifies source
      ensures buf.None? <==> source.faults > old(source.faults)
      ensures source.faults >= old(source.faults)
      ensures buf.Some? ==> buf.value + source.rest == old(source.rest) && |buf.value| <= chunkSize
      ensures buf.Some? && |buf.value| < chunkSize ==> source.rest == []
    {
      var got: seq<u8> := [];
      while |got| < chunkSize
        invariant |got| <= chunkSize
        invariant got + source.rest == old(source.rest)
        invariant source.faults == old(source.faults)
        decreases chunkSize - |got|
      {
        var fails := source.Fails();
        if fails {
          return None;
        }
        var more := source.Read(chunkSize - |got|);
        if more == [] {
          break;
        }
        assert got + (more + source.rest) == got + more + source.rest;
        got := got + more;
      }
      buf := Some(got);
    }

    /** One pass of the reader's loop, up to and including its send. */
    method Step()
      requires Valid() && state.Running? && |channel| < READ_AHEAD
      modifies this, source
      ensures Valid() && |sent| - |channel| == old(|sent| - |channel|)
      ensures old(sent) <= sent
      ensures state.Running? ==> |source.rest| < old(|source.rest|)
      ensures Remaining() <= old(Remaining())
    {
      hide Cut;
      var before := source.rest;
      var buf := Fill();
      match buf {
        case None =>
          state := Failed;
        case Some(data) =>
          if data == [] {
            NothingToCut(chunkSize, partNumber + 1);
            assert before == [] && sent + [] == sent;
            state := Finished;
            return;
          }
          CutNext(data, source.rest, chunkSize, partNumber + 1);
          Appended(sent, Part(partNumber + 1, data), Cut(source.rest, chunkSize, partNumber + 2));
          partNumber := partNumber + 1;
          channel := channel + [Part(partNumber, data)];
          sent := sent + [Part(partNumber, data)];
          if |data| < chunkSize {
            NothingToCut(chunkSize, partNumber + 1);
            assert sent + [] == sent;
            state := Finished;
          }
      }
    }

    /** `recv`: the reader runs ahead as far as it likes, and at least until something arrives or it ends. */
    method Receive() returns (part: Option<Part>)
      requires Valid()
      modifies this, source
      ensures Valid()
      ensures old(sent) <= sent
      ensures part.None? ==> !state.Running? && channel == [] && |sent| == old(|sent| - |channel|)
      ensures part.Some? ==> |sent| - |channel| == old(|sent| - |channel|) + 1
                             && part.value == sent[old(|sent| - |channel|)]
      ensures Remaining() <= old(Remaining()) && (part.Some? ==> Remaining() < old(Remaining()))
    {
      var eager: bool := *;
      while state.Running? && |channel| < READ_AHEAD && (channel == [] || eager)
        invariant Valid()
        invariant |sent| - |channel| == old(|sent| - |channel|)
        invariant old(sent) <= sent
        invariant Remaining() <= old(Remaining())
        decreases state.Running?, |source.rest|
      {
        Step();
        eager := *;
      }
      if channel == [] {
        return None;
      }
      part := Some(channel[0]);
      channel := channel[1..];
    }

    /** An upper bound on the parts still to be received. */
    ghost function Remaining(): nat
      reads this, source
    {
      |channel| + if state.Running? then |source.rest| else 0
    }
  }

  // ---- The object store's side ----

  /** One key and the one multipart upload in progress on it. */
  class Target {
    var stored: Option<seq<u8>>
    var parts: map<nat, seq<u8>>
    /** How many requests have failed for good, or succeeded without a reply. */
    ghost var faults: nat

    constructor (stored: Option<seq<u8>>)
      ensures this.stored == stored && parts == map[] && faults == 0
    {
      this.stored := stored;
      parts := map[];
      faults := 0;
    }

    /** A part upload after its retries. One that is reported as failed may still have arrived. */
    method UploadPart(number: nat, data: seq<u8>) returns (ok: bool)
      modifies this`parts, this`faults
      ensures ok ==> parts == old(parts)[number := data]
      ensures parts == old(parts) || parts == old(parts)[number := data]
      ensures faults == if ok then old(faults) else old(faults) + 1
    {
      ok := *;
      faults := if ok then faults else faults + 1;
      var arrived: bool := *;
      if ok || arrived {
        parts := parts[number := data];
      }
    }

    /**
     * `complete_multipart_upload`: joins the listed parts, in the order listed. It refuses an
     * empty or unordered list and parts it does not have. Success may go unreported.
     */
    method Complete(numbers: seq<nat>) returns (ok: bool)
      modifies this`stored, this`faults
      ensures faults == if ok || !Listable(numbers, parts) then old(faults) else old(faults) + 1
      ensures stored == old(stored)
              || (numbers != [] && Listable(numbers, parts) && stored == Some(Assembled(numbers, parts)))
      ensures ok ==> Listable(numbers, parts) && stored == Some(Assembled(numbers, parts))
    {
      ok := *;
      var lost: bool := *;
      if !Listable(numbers, parts) {
        ok := false;
      } else {
        faults := if ok then faults else faults + 1;
        if ok || lost {
          stored := Some(Assembled(numbers, parts));
        }
      }
    }
  }

  predicate Listable(numbers: seq<nat>, parts: map<nat, seq<u8>>) {
    && numbers != []
    && (forall i :: 0 <= i < |numbers| ==> numbers[i] in parts)
    && (forall i, j :: 0 <= i < j < |numbers| ==> numbers[i] < numbers[j])
  }

  function Assembled(numbers: seq<nat>, parts: map<nat, seq<u8>>): seq<u8>
    requires forall i :: 0 <= i < |numbers| ==> numbers[i] in parts
  {
    if numbers == [] then [] else parts[numbers[0]] + Assembled(numbers[1..], parts)
  }

  lemma {:induction false} AssembledSnoc(s: seq<nat>, x: nat, parts: map<nat, seq<u8>>)
    requires x in parts && forall i :: 0 <= i < |s| ==> s[i] in parts
    ensures Assembled(s + [x], parts) == Assembled(s, parts) + parts[x]
  {
    if s == [] {
      assert (s + [x])[1..] == [];
    } else {
      AssembledSnoc(s[1..], x, parts);
      assert (s + [x])[1..] == s[1..] + [x];
    }
  }

  lemma {:induction false} AssembledFrame(s: seq<nat>, a: map<nat, seq<u8>>, b: map<nat, seq<u8>>)
    requires forall i :: 0 <= i < |s| ==> s[i] in a && s[i] in b && a[s[i]] == b[s[i]]
    ensures Assembled(s, a) == Assembled(s, b)
  {
    if s != [] {
      AssembledFrame(s[1..], a, b);
    }
  }

  // ---- Sorting the completed parts ----

  predicate Ordered(s: seq<nat>) {
    forall i, j :: 0 <= i < j < |s| ==> s[i] < s[j]
  }

  predicate Distinct(s: seq<nat>) {
    forall i, j :: 0 <= i < j < |s| ==> s[i] != s[j]
  }

  function Insert(x: nat, s: seq<nat>): (r: seq<nat>)
    ensures forall y :: y in r <==> y == x || y in s
  {
    if s == [] || x <= s[0] then [x] + s
    else
      var r := Insert(x, s[1..]);
      assert forall y :: y in s <==> y == s[0] || y in s[1..];
      assert forall y :: y in [s[0]] + r <==> y == s[0] || y in r;
      [s[0]] + r
  }

  lemma {:induction false} InsertOrdered(x: nat, s: seq<nat>)
    requires Ordered(s) && x !in s
    ensures Ordered(Insert(x, s))
  {
    if s != [] && s[0] < x {
      InsertOrdered(x, s[1..]);
      var r := Insert(x, s[1..]);
      forall i | 0 <= i < |r| ensures s[0] < r[i] {
        assert r[i] in r;
      }
    }
  }

  /** `sort_by_key` on the part number. */
  function Sorted(s: seq<nat>): (r: seq<nat>)
    ensures forall y :: y in r <==> y in s
  {
    if s == [] then [] else Insert(s[0], Sorted(s[1..]))
  }

  lemma {:induction false} SortedOrdered(s: seq<nat>)
    requires Distinct(s)
    ensures Ordered(Sorted(s))
  {
    if s != [] {
      SortedOrdered(s[1..]);
      InsertOrdered(s[0], Sorted(s[1..]));
    }
  }

  lemma FirstIn(s: seq<nat>)
    requires s != []
    ensures s[0] in s
  {
  }

  /** An ordered sequence of exactly the numbers from 1 to `n` counts them off. */
  lemma {:induction false} OrderedIsRange(s: seq<nat>, n: nat)
    requires Ordered(s) && forall k :: k in s <==> 1 <= k <= n
    ensures |s| == n && forall i :: 0 <= i < n ==> s[i] == i + 1
  {
    if n > 0 {
      assert n in s;
      var last := |s| - 1;
      assert s[last] in s;
      var front := s[..last];
      forall k
        ensures k in front <==> 1 <= k <= n - 1
      {
        if 1 <= k <= n - 1 {
          assert k in s;
        }
        if k in front {
          assert k in s;
        }
      }
      OrderedIsRange(front, n - 1);
    } else if s != [] {
      FirstIn(s);
    }
  }

  lemma {:induction false} InsertLength(x: nat, s: seq<nat>, parts: map<nat, seq<u8>>)
    requires x in parts && forall i :: 0 <= i < |s| ==> s[i] in parts
    ensures forall i :: 0 <= i < |Insert(x, s)| ==> Insert(x, s)[i] in parts
    ensures |Assembled(Insert(x, s), parts)| == |parts[x]| + |Assembled(s, parts)|
  {
    forall i | 0 <= i < |Insert(x, s)| ensures Insert(x, s)[i] in parts {
      assert Insert(x, s)[i] in Insert(x, s);
    }
    if s == [] || x <= s[0] {
      assert ([x] + s)[1..] == s;
    } else {
      InsertLength(x, s[1..], parts);
      assert ([s[0]] + Insert(x, s[1..]))[1..] == Insert(x, s[1..]);
    }
  }

  /** Completion order does not change how much was uploaded. */
  lemma {:induction false} SortedLength(s: seq<nat>, parts: map<nat, seq<u8>>)
    requires forall i :: 0 <= i < |s| ==> s[i] in parts
    ensures forall i :: 0 <= i < |Sorted(s)| ==> Sorted(s)[i] in parts
    ensures |Assembled(Sorted(s), parts)| == |Assembled(s, parts)|
  {
    if s != [] {
      SortedLength(s[1..], parts);
      InsertLength(s[0], Sorted(s[1..]), parts);
    }
  }

  /** In number order, the parts give back what was sent. */
  lemma {:induction false} AssembledIsJoined(numbers: seq<nat>, sent: seq<Part>, parts: map<nat, seq<u8>>)
    requires |numbers| == |sent|
    requires forall i :: 0 <= i < |numbers| ==> numbers[i] in parts && parts[numbers[i]] == sent[i].data
    ensures Assembled(numbers, parts) == Joined(sent)
  {
    if numbers != [] {
      AssembledIsJoined(numbers[1..], sent[1..], parts);
    }
  }

  // ---- The upload ----

  /** Where every received part is: in flight, or completed with its data stored. */
  ghost predicate Accounted(sent: seq<Part>, received: nat, tasks: map<nat, seq<u8>>,
                            completed: seq<nat>, stored: map<nat, seq<u8>>)
  {
    && received <= |sent|
    && (forall i :: 0 <= i < |sent| ==> sent[i].number == i + 1)
    && (forall k :: k in tasks ==> 1 <= k <= received && k !in completed && tasks[k] == sent[k - 1].data)
    && (forall k :: k in completed ==> 1 <= k <= received && k in stored && stored[k] == sent[k - 1].data)
    && (forall k :: 1 <= k <= received ==> k in tasks || k in completed)
    && Distinct(completed)
  }

  /** `uploaded` is the size of the completed parts. */
  ghost predicate Tally(uploaded: nat, completed: seq<nat>, stored: map<nat, seq<u8>>) {
    && (forall i :: 0 <= i < |completed| ==> completed[i] in stored)
    && uploaded == |Assembled(completed, stored)|
  }

  lemma NothingYet(sent: seq<Part>, stored: map<nat, seq<u8>>)
    requires sent == []
    ensures Accounted(sent, 0, map[], [], stored) && Tally(0, [], stored)
  {
  }

  lemma StillAccounted(before: seq<Part>, sent: seq<Part>, received: nat, tasks: map<nat, seq<u8>>,
                       completed: seq<nat>, stored: map<nat, seq<u8>>)
    requires Accounted(before, received, tasks, completed, stored)
    requires before <= sent && forall i :: 0 <= i < |sent| ==> sent[i].number == i + 1
    ensures Accounted(sent, received, tasks, completed, stored)
  {
  }

  lemma Spawned(before: seq<Part>, sent: seq<Part>, received: nat, tasks: map<nat, seq<u8>>,
                completed: seq<nat>, stored: map<nat, seq<u8>>)
    requires Accounted(before, received, tasks, completed, stored)
    requires before <= sent && forall i :: 0 <= i < |sent| ==> sent[i].number == i + 1
    requires received < |sent|
    ensures Accounted(sent, received + 1, tasks[received + 1 := sent[received].data], completed, stored)
    ensures received + 1 !in tasks
  {
  }

  lemma TaskJoined(sent: seq<Part>, received: nat, tasks: map<nat, seq<u8>>, completed: seq<nat>,
                   before: map<nat, seq<u8>>, k: nat)
    requires Accounted(sent, received, tasks, completed, before) && k in tasks
    ensures Accounted(sent, received, tasks - {k}, completed + [k], before[k := tasks[k]])
  {
  }

  lemma Tallied(uploaded: nat, completed: seq<nat>, before: map<nat, seq<u8>>, k: nat, data: seq<u8>)
    requires Tally(uploaded, completed, before) && k !in completed
    ensures Tally(uploaded + |data|, completed + [k], before[k := data])
  {
    AssembledFrame(completed, before, before[k := data]);
    AssembledSnoc(completed, k, before[k := data]);
  }

  /** `join_next`: some upload in flight ends. */
  method JoinNext(target: Target, tasks: map<nat, seq<u8>>, completed: seq<nat>, uploaded: nat,
                  ghost sent: seq<Part>, ghost received: nat)
      returns (ok: bool, tasks1: map<nat, seq<u8>>, completed1: seq<nat>, uploaded1: nat)
    requires tasks != map[] && Accounted(sent, received, tasks, completed, target.parts)
    requires Tally(uploaded, completed, target.parts)
    modifies target`parts, target`faults
    ensures ok <==> target.faults == old(target.faults)
    ensures target.faults >= old(target.faults)
    ensures |tasks1| == |tasks| - 1
    ensures ok ==> Accounted(sent, received, tasks1, completed1, target.parts)
    ensures ok ==> Tally(uploaded1, completed1, target.parts)
  {
    var k :| k in tasks;
    assert k !in completed;
    hide Accounted;
    hide Tally;
    TaskJoined(sent, received, tasks, completed, target.parts, k);
    Tallied(uploaded, completed, target.parts, k, tasks[k]);
    ok := target.UploadPart(k, tasks[k]);
    tasks1, completed1, uploaded1 := tasks - {k}, completed, uploaded;
    assert tasks1.Keys == tasks.Keys - {k};
    if ok {
      completed1 := completed + [k];
      uploaded1 := uploaded + |tasks[k]|;
    }
  }

  /** Joins tasks until fewer than `below` are in flight. */
  method JoinUntil(target: Target, tasks: map<nat, seq<u8>>, completed: seq<nat>, uploaded: nat, below: nat,
                   ghost sent: seq<Part>, ghost received: nat)
      returns (ok: bool, tasks1: map<nat, seq<u8>>, completed1: seq<nat>, uploaded1: nat)
    requires below >= 1
    requires Accounted(sent, received, tasks, completed, target.parts)
    requires Tally(uploaded, completed, target.parts)
    modifies target`parts, target`faults
    ensures ok <==> target.faults == old(target.faults)
    ensures target.faults >= old(target.faults)
    ensures ok ==> |tasks1| < below
    ensures ok ==> Accounted(sent, received, tasks1, completed1, target.parts)
    ensures ok ==> Tally(uploaded1, completed1, target.parts)
  {
    hide *;
    ok, tasks1, completed1, uploaded1 := true, tasks, completed, uploaded;
    while ok && |tasks1| >= below
      invariant ok ==> Accounted(sent, received, tasks1, completed1, target.parts)
      invariant ok ==> Tally(uploaded1, completed1, target.parts)
      invariant ok <==> target.faults == old(target.faults)
      invariant target.faults >= old(target.faults)
      decreases ok, |tasks1|
    {
      ok, tasks1, completed1, uploaded1 := JoinNext(target, tasks1, completed1, uploaded1, sent, received);
    }
  }

  /** Receives every part the reader sends and uploads them, at most `limit` at a time. */
  method SpawnAll(target: Target, reader: Reader, limit: nat)
      returns (ok: bool, tasks: map<nat, seq<u8>>, completed: seq<nat>, uploaded: nat, ghost peak: nat)
    requires limit >= 1 && target.parts == map[]
    requires reader.Valid() && reader.state.Running? && reader.sent == []
    modifies target`parts, target`faults, reader, reader.source
    ensures ok <==> target.faults == old(target.faults)
    ensures target.faults >= old(target.faults)
    ensures reader.Valid() && (ok ==> !reader.state.Running?)
    ensures ok ==> Accounted(reader.sent, |reader.sent|, tasks, completed, target.parts)
    ensures ok ==> Tally(uploaded, completed, target.parts)
    ensures peak <= limit
  {
    hide Accounted;
    hide Tally;
    hide Cut;
    tasks, completed, uploaded, peak := map[], [], 0, 0;
    ghost var received := 0;
    NothingYet(reader.sent, target.parts);
    while true
      invariant reader.Valid()
      invariant received == |reader.sent| - |reader.channel|
      invariant Accounted(reader.sent, received, tasks, completed, target.parts)
      invariant Tally(uploaded, completed, target.parts)
      invariant |tasks| <= limit && peak <= limit
      invariant target.faults == old(target.faults)
      decreases reader.Remaining()
    {
      ok, tasks, completed, uploaded :=
        JoinUntil(target, tasks, completed, uploaded, limit, reader.sent, received);
      if !ok {
        return;
      }
      ghost var before := reader.sent;
      var part := reader.Receive();
      match part {
        case None =>
          StillAccounted(before, reader.sent, received, tasks, completed, target.parts);
          return;
        case Some(p) =>
          Spawned(before, reader.sent, received, tasks, completed, target.parts);
          received := received + 1;
          tasks := tasks[p.number := p.data];
          peak := if |tasks| > peak then |tasks| else peak;
      }
    }
  }

  /** Every part is there under its number. */
  predicate PartsStored(sent: seq<Part>, parts: map<nat, seq<u8>>) {
    forall i :: 0 <= i < |sent| ==> sent[i].number in parts && parts[sent[i].number] == sent[i].data
  }

  /**
   * `put_object_multipart_reader`: it succeeds exactly when no request and no read fails and the
   * stream is not empty, and then the object is the whole stream. Whatever fails, the object is
   * untouched or, when only the reply to the completion was lost, the whole stream.
   */
  method PutObjectMultipartReader(target: Target, reader: Reader, limit: nat)
      returns (r: Result<nat, UploadError>, ghost peak: nat)
    requires limit >= 1 && target.parts == map[]
    requires reader.Valid() && reader.state.Running? && reader.sent == []
    modifies target, reader, reader.source
    ensures target.faults >= old(target.faults)
    ensures reader.source.faults >= old(reader.source.faults)
    ensures r.Ok? <==>
              && target.faults == old(target.faults) && reader.source.faults == old(reader.source.faults)
              && reader.input != []
    ensures r.Err? && r.error.PartFailed? ==> target.faults > old(target.faults)
    ensures r.Err? && r.error.ReaderFailed? ==> reader.source.faults > old(reader.source.faults)
    ensures r.Ok? ==> target.stored == Some(reader.input) && r.value == |reader.input| && reader.input != []
    ensures r.Err? && r.error.CompleteFailed? ==>
              target.stored == old(target.stored) || (target.stored == Some(reader.input) && reader.input != [])
    ensures r.Err? && !r.error.CompleteFailed? ==> target.stored == old(target.stored)
    ensures reader.source.faults > old(reader.source.faults) ==> r.Err? && !r.error.CompleteFailed?
    ensures r.Ok? ==> PartsStored(Cut(reader.input, reader.chunkSize, 1), target.parts)
    ensures peak <= limit
  {
    hide *;
    var ok, tasks, completed, uploaded;
    FailedReads(reader);
    ok, tasks, completed, uploaded, peak := SpawnAll(target, reader, limit);
    FailedReads(reader);
    if !ok {
      return Err(PartFailed), peak;
    }
    if reader.state.Failed? {
      return Err(ReaderFailed), peak;
    }
    ok, tasks, completed, uploaded :=
      JoinUntil(target, tasks, completed, uploaded, 1, reader.sent, |reader.sent|);
    if !ok {
      return Err(PartFailed), peak;
    }
    assert tasks == map[];
    AllCompleted(reader, completed, target.parts);
    TallySorted(uploaded, completed, target.parts);
    TallySize(uploaded, Sorted(completed), target.parts);
    completed := Sorted(completed);
    NotFailed(reader);
    ok := target.Complete(completed);
    r := if ok then Ok(uploaded) else Err(CompleteFailed);
  }

  lemma FailedReads(reader: Reader)
    requires reader.Valid()
    ensures reader.source.faults >= reader.earlier
    ensures reader.state.Failed? <==> reader.source.faults > reader.earlier
  {
  }

  lemma NotFailed(reader: Reader)
    requires reader.Valid() && !reader.state.Running? && !reader.state.Failed?
    ensures reader.state.Finished?
  {
  }

  lemma TallySize(uploaded: nat, completed: seq<nat>, stored: map<nat, seq<u8>>)
    requires Tally(uploaded, completed, stored)
    requires forall i :: 0 <= i < |completed| ==> completed[i] in stored
    ensures uploaded == |Assembled(completed, stored)|
  {
  }

  lemma TallySorted(uploaded: nat, completed: seq<nat>, stored: map<nat, seq<u8>>)
    requires Tally(uploaded, completed, stored)
    ensures Tally(uploaded, Sorted(completed), stored)
  {
    SortedLength(completed, stored);
  }

  /** Once all tasks are joined, the sorted parts are the stream. */
  lemma AllCompleted(reader: Reader, completed: seq<nat>, stored: map<nat, seq<u8>>)
    requires reader.Valid() && reader.state.Finished?
    requires Accounted(reader.sent, |reader.sent|, map[], completed, stored)
    ensures forall i :: 0 <= i < |Sorted(completed)| ==> Sorted(completed)[i] in stored
    ensures Assembled(Sorted(completed), stored) == reader.input
    ensures Sorted(completed) != [] <==> reader.input != []
    ensures Listable(Sorted(completed), stored) <==> reader.input != []
    ensures PartsStored(Cut(reader.input, reader.chunkSize, 1), stored)
  {
    hide Sorted;
    var numbers := Sorted(completed);
    SortedOrdered(completed);
    OrderedIsRange(numbers, |reader.sent|);
    forall i | 0 <= i < |numbers|
      ensures numbers[i] in stored && stored[numbers[i]] == reader.sent[i].data
    {
      assert numbers[i] in numbers;
    }
    AssembledIsJoined(numbers, reader.sent, stored);
    CutShape(reader.input, reader.chunkSize, 1);
  }
}

/**
 * The bucket with its blobs and manifests, the GC runs of src/gc.rs and the backups of
 * src/snapshots.rs, as one state machine. A step is one store call of one process;
 * processes interleave freely, take no lock into account and may stop anywhere.
 */
module GcStore {
  import opened Wrappers
  import opened Bytes
  import Keys

  type Hash = seq<u8>
  type Name = seq<u8>
  type Id = nat

  /** The blob hashes a manifest names. */
  type Manifest = set<Hash>

  datatype Kind = All | Remove(target: Name, parts: Manifest) | Live

  datatype Gc =
    | Targeted(target: Name, parts: Manifest)
    | Planning(kind: Kind, listedAt: int, unread: set<Name>, read: map<Name, Manifest>)
    | Scanning(referenced: set<Hash>, listedAt: int, cutoff: int, pending: set<Hash>)
    | Dropping(names: set<Name>, exclusive: set<Hash>, tolerant: bool)
    | Erasing(pending: set<Hash>)

  /**
   * `reused`: hashes known from a manifest or found by HEAD; `uploaded`: with their
   * LastModified; `exposed`: those uploaded while some GC run was about to delete them.
   */
  datatype Backup = Backup(reused: set<Hash>, uploaded: map<Hash, int>, exposed: set<Hash>)

  datatype State = State(
    now: int,
    blobs: map<Hash, int>,
    manifests: map<Name, Manifest>,
    gcs: map<Id, Gc>,
    backups: map<Id, Backup>)

  /** Outcome of a manifest delete: confirmed, done with the reply lost, or not done. */
  datatype Drop = Dropped | DroppedUnconfirmed | NotDropped

  datatype Step =
    | Tick
    // GC
    | StartGc(g: Id, live: bool)                  // LIST the manifests
    | ReadTarget(g: Id, name: Name)               // rm-snapshot reads its manifest
    | ListOthers(g: Id)                           // and LISTs the others
    | ReadManifest(g: Id, name: Name)
    | Plan(g: Id, prune: set<Name>, grace: int)
    | ListBlob(g: Id, hash: Hash)                 // one entry of the blob LIST
    | DropManifest(g: Id, name: Name, outcome: Drop)
    | StartErasing(g: Id)
    | EraseBlob(g: Id, hash: Hash, effect: bool, again: bool)
    | StopGc(g: Id)
    // Backups
    | StartBackup(b: Id)
    | KnowManifest(b: Id, name: Name)
    | HeadSkip(b: Id, hash: Hash)
    | Upload(b: Id, hash: Hash)
    | Commit(b: Id, name: Name, parts: Manifest)
    | StopBackup(b: Id)

  function Union(ms: map<Name, Manifest>): set<Hash> {
    set n, h | n in ms && h in ms[n] :: h
  }

  function Only(ms: map<Name, Manifest>, names: set<Name>): map<Name, Manifest> {
    map n | n in ms && n in names :: ms[n]
  }

  /** Some GC run is about to delete the blob. */
  predicate Pending(s: State, hash: Hash) {
    exists g :: g in s.gcs && (s.gcs[g].Scanning? || s.gcs[g].Erasing?) && hash in s.gcs[g].pending
  }

  function WithGc(s: State, g: Id, p: Gc): State { s.(gcs := s.gcs[g := p]) }

  function WithoutGc(s: State, g: Id): State { s.(gcs := s.gcs - {g}) }

  /** A manifest that has vanished since the LIST makes the run stop with an error. */
  function ApplyRead(s: State, g: Id, name: Name): Option<State>
    requires g in s.gcs
  {
    var p := s.gcs[g];
    if !p.Planning? || name !in p.unread then None
    else if name !in s.manifests then Some(WithoutGc(s, g))
    else Some(WithGc(s, g, p.(unread := p.unread - {name}, read := p.read[name := s.manifests[name]])))
  }

  /** All manifests are read: what to delete, and for `gc-all` from what age on. */
  function ApplyPlan(s: State, g: Id, prune: set<Name>, grace: int): Option<State>
    requires g in s.gcs
  {
    var p := s.gcs[g];
    if !p.Planning? || p.unread != {} then None
    else
      match p.kind
      case All => Some(WithGc(s, g, Scanning(Union(p.read), p.listedAt, s.now - grace, {})))
      case Remove(target, parts) => Some(WithGc(s, g, Dropping({target}, parts - Union(p.read), false)))
      case Live =>
        if !(prune <= p.read.Keys) then None
        else
          var exclusive := Union(Only(p.read, prune)) - Union(p.read - prune);
          Some(WithGc(s, g, Dropping(prune, exclusive, true)))
  }

  /** `gc-live` goes on after a failed delete, `rm-snapshot` stops. */
  function ApplyDrop(s: State, g: Id, name: Name, outcome: Drop): Option<State>
    requires g in s.gcs
  {
    var p := s.gcs[g];
    if !p.Dropping? || name !in p.names then None
    else
      var t := if outcome.NotDropped? then s else s.(manifests := s.manifests - {name});
      if outcome.Dropped? || p.tolerant then Some(WithGc(t, g, p.(names := p.names - {name})))
      else Some(WithoutGc(t, g))
  }

  function ApplyErase(s: State, g: Id, hash: Hash, effect: bool, again: bool): Option<State>
    requires g in s.gcs
  {
    var p := s.gcs[g];
    if !(p.Scanning? || p.Erasing?) || hash !in p.pending then None
    else
      var t := if effect then s.(blobs := s.blobs - {hash}) else s;
      Some(WithGc(t, g, if again then p else p.(pending := p.pending - {hash})))
  }

  /** `remote_scan_and_delete`: an old blob whose key is selected becomes a deletion candidate. */
  function ApplyListBlob(s: State, g: Id, hash: Hash): Option<State>
    requires g in s.gcs
  {
    var p := s.gcs[g];
    if !p.Scanning? || hash !in s.blobs || s.blobs[hash] > p.cutoff then None
    else if !Keys.Scanned(hash) || !Keys.Selected(hash, p.referenced) then None
    else Some(WithGc(s, g, p.(pending := p.pending + {hash})))
  }

  /**
   * Which blobs of 32 hex digits become candidates: old ones that start with two lower-case
   * digits and that no referenced hash equals up to letter case.
   */
  lemma CandidateExactly(s: State, g: Id, hash: Hash)
    requires g in s.gcs && s.gcs[g].Scanning? && hash in s.blobs && Keys.FromHex(hash).Some?
    ensures ApplyListBlob(s, g, hash).Some? <==>
              && s.blobs[hash] <= s.gcs[g].cutoff && Keys.Scanned(hash)
              && forall h :: h in s.gcs[g].referenced ==> Keys.Lower(h) != Keys.Lower(hash)
  {
    hide Keys.Selected;
    Keys.SelectionExact(hash, s.gcs[g].referenced);
  }

  function ApplyGc(s: State, step: Step): Option<State>
    requires step.ReadManifest? || step.Plan? || step.ListBlob? || step.DropManifest?
             || step.StartErasing? || step.EraseBlob? || step.StopGc? || step.ListOthers?
  {
    if step.g !in s.gcs then None
    else
      var p := s.gcs[step.g];
      match step
      case ReadManifest(g, name) => ApplyRead(s, g, name)
      case Plan(g, prune, grace) => ApplyPlan(s, g, prune, grace)
      case ListBlob(g, hash) => ApplyListBlob(s, g, hash)
      case DropManifest(g, name, outcome) => ApplyDrop(s, g, name, outcome)
      case EraseBlob(g, hash, effect, again) => ApplyErase(s, g, hash, effect, again)
      case StartErasing(g) =>
        if p.Dropping? && p.names == {} then Some(WithGc(s, g, Erasing(p.exclusive))) else None
      case ListOthers(g) =>
        if p.Targeted?
        then Some(WithGc(s, g, Planning(Remove(p.target, p.parts), s.now, s.manifests.Keys - {p.target}, map[])))
        else None
      case StopGc(g) => Some(WithoutGc(s, g))
  }

  function ApplyBackup(s: State, step: Step): Option<State>
    requires step.KnowManifest? || step.HeadSkip? || step.Upload? || step.Commit? || step.StopBackup?
  {
    if step.b !in s.backups then None
    else
      var k := s.backups[step.b];
      match step
      case KnowManifest(b, name) =>
        if name !in s.manifests then None
        else Some(s.(backups := s.backups[b := k.(reused := k.reused + s.manifests[name])]))
      case HeadSkip(b, hash) =>
        if hash !in s.blobs then None
        else Some(s.(backups := s.backups[b := k.(reused := k.reused + {hash})]))
      case Upload(b, hash) =>
        var exposed := if Pending(s, hash) then k.exposed + {hash} else k.exposed - {hash};
        Some(s.(blobs := s.blobs[hash := s.now],
                backups := s.backups[b := k.(uploaded := k.uploaded[hash := s.now], exposed := exposed)]))
      case Commit(b, name, parts) =>
        if name in s.manifests || !(parts <= k.reused + k.uploaded.Keys) then None
        else Some(s.(manifests := s.manifests[name := parts], backups := s.backups - {b}))
      case StopBackup(b) => Some(s.(backups := s.backups - {b}))
  }

  /** What one step does; None when it is not enabled. */
  function Apply(s: State, step: Step): Option<State> {
    match step
    case Tick => Some(s.(now := s.now + 1))
    case StartGc(g, live) =>
      if g in s.gcs then None
      else Some(WithGc(s, g, Planning(if live then Live else All, s.now, s.manifests.Keys, map[])))
    case ReadTarget(g, name) =>
      if g in s.gcs || name !in s.manifests then None
      else Some(WithGc(s, g, Targeted(name, s.manifests[name])))
    case StartBackup(b) =>
      if b in s.backups then None else Some(s.(backups := s.backups[b := Backup({}, map[], {})]))
    case KnowManifest(_, _) => ApplyBackup(s, step)
    case HeadSkip(_, _) => ApplyBackup(s, step)
    case Upload(_, _) => ApplyBackup(s, step)
    case Commit(_, _, _) => ApplyBackup(s, step)
    case StopBackup(_) => ApplyBackup(s, step)
    case _ => ApplyGc(s, step)
  }

  /**
   * What a backup comes to rely on without uploading it is there, or a manifest names it, at that
   * moment; what it uploads is there with the present time; and it commits nothing else.
   */
  lemma ReliedOnIsThere(s: State, step: Step, b: Id, h: Hash)
    requires Apply(s, step).Some? && b in s.backups
    ensures var t := Apply(s, step).value;
            && (b in t.backups && h in t.backups[b].reused && h !in s.backups[b].reused ==>
                  h in s.blobs || exists n :: n in s.manifests && h in s.manifests[n])
            && (step == Upload(b, h) ==> h in t.blobs && t.blobs[h] == s.now && b in t.backups
                                         && h in t.backups[b].uploaded && t.backups[b].uploaded[h] == s.now)
            && (step.Commit? && step.b == b && h in step.parts ==>
                  h in s.backups[b].reused || h in s.backups[b].uploaded)
  {
    if step.KnowManifest? && step.b == b && h in s.manifests[step.name] {
      assert step.name in s.manifests;
    }
  }

  /** The state at the end of a run, None when a step was not enabled. */
  function Run(s: State, steps: seq<Step>): Option<State> {
    if steps == [] then Some(s)
    else
      var last := |steps| - 1;
      var t :- Run(s, steps[..last]);
      Apply(t, steps[last])
  }

  lemma RunPrefix(s: State, steps: seq<Step>, k: nat)
    requires 0 < k <= |steps|
    ensures Run(s, steps[..k]) ==
            if Run(s, steps[..k - 1]).None? then None else Apply(Run(s, steps[..k - 1]).value, steps[k - 1])
  {
    assert steps[..k][..k - 1] == steps[..k - 1];
  }

  /** The states of a run, one after the other. */
  predicate Chain(states: seq<State>, steps: seq<Step>) {
    && |states| == |steps| + 1
    && forall k :: 0 <= k < |steps| ==> Apply(states[k], steps[k]) == Some(states[k + 1])
  }

  lemma {:induction false} ChainRuns(states: seq<State>, steps: seq<Step>, k: nat)
    requires Chain(states, steps) && k <= |steps|
    ensures Run(states[0], steps[..k]) == Some(states[k])
  {
    if k > 0 {
      ChainRuns(states, steps, k - 1);
      RunPrefix(states[0], steps, k);
    }
  }

  /** Every snapshot can be restored: all blobs of every manifest exist. */
  predicate Complete(s: State) {
    forall n :: n in s.manifests ==> s.manifests[n] <= s.blobs.Keys
  }
}

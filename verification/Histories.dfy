/**
 Runs of the whole program: any sequence of operations on one host, any of whose calls may fail.
 The store stays sound, no operation ever damages the chain of an image or a volume it was not
 asked to touch, and it is known exactly when a layer can end up under a name that is not its digest.
 */
module Histories {
  import opened Wrappers
  import opened Volumes
  import opened Addresses
  import opened Libvirt
  import opened Dhcp
  import opened Layers
  import opened Images
  import opened Digests
  import opened Removal
  import opened Machines
  import opened Commit
  import opened Interruptions

  datatype Op =
    | ImportImage(image: string, remote: RemoteImage)
    | ImportStream(image: string, bytes: Bytes)
    | TagLayer(image: string, top: Name)
    | RemoveTag(image: string)
    | SpawnFrom(name: string, base: Option<Name>)
    | GuestWrites(name: string, bytes: Bytes)
    | StartMachine(cfg: VMConfig)
    | RemoveMachine(name: string, removeDHCP: bool, removeBoot: bool)
    | CommitMachineTo(name: string, target: CommitConfig)
    | PruneStore
    | AddEntries(id: UInt, count: UInt)
    | RemoveEntries(mac: Bytes)

  /** What callers pass: layers where layers are meant, and no more disks than fit a counter. */
  ghost predicate Acceptable(op: Op) {
    match op
    case TagLayer(_, top) => top.Layer?
    case SpawnFrom(_, base) => base.Some? ==> base.value.Layer?
    case StartMachine(cfg) => (cfg.top.Some? ==> cfg.top.value.Layer?) && |cfg.disks| < 0x1_0000_0000
    case _ => true
  }

  /** The start got as far as p says. */
  ghost predicate Started(s: State, w: string, cfg: VMConfig, p: Progress, s': State) {
    if p.NotDefined? then s' == s
    else RunChecks(s, w, cfg, p.id) && InOrder(s, w, cfg, p) && s' == RunState(s, w, cfg, p)
  }

  /** What an operation on images may do to the volumes. */
  ghost predicate StoreStep(p: Pool, digest: Vol -> Hash, op: Op, p': Pool, del: bool) {
    match op
    case ImportImage(image, remote) => ImportOutcome(p, image, remote, p', del)
    case ImportStream(image, bytes) => StreamOutcome(p, image, bytes, digest(Vol(None, bytes)), p', del)
    case TagLayer(image, top) => RetagOutcome(p, image, top, p')
    case RemoveTag(image) => RemoveOutcome(p, image, p')
    case SpawnFrom(name, base) => SpawnOutcome(p, name, base, p')
    case GuestWrites(name, bytes) => p' == Written(p, Work(name), bytes)
    case PruneStore => PartlySwept(p, p')
    case _ => false
  }

  /** What an operation on machines or host entries may do. */
  ghost predicate HostStep(s: State, w: string, digest: Vol -> Hash, op: Op, s': State, del: bool) {
    match op
    case StartMachine(cfg) => exists p :: Started(s, w, cfg, p, s')
    case RemoveMachine(name, removeDHCP, removeBoot) =>
      exists done :: Attempt(s, s', name, removeDHCP, removeBoot, done)
    case CommitMachineTo(name, cfg) => CommitOutcome(s, digest, name, cfg, s', del)
    case AddEntries(id, count) =>
      s' == s.(networks := s'.networks) && exists done :: HostsAdded(s.networks, s'.networks, w, id, count, done)
    case RemoveEntries(mac) =>
      s' == s.(networks := s'.networks) && MacRemoved(s.networks, s'.networks, w, mac)
    case _ => false
  }

  /**
   What one operation may do to the state of the host, whichever of its calls fail; `del` allows
   deletions of volumes to fail, too.
   */
  ghost predicate Step(s: State, w: string, digest: Vol -> Hash, op: Op, s': State, del: bool) {
    && Acceptable(op)
    && if OnVolumesOnly(op) then s' == s.(vols := s'.vols) && StoreStep(s.vols, digest, op, s'.vols, del)
       else HostStep(s, w, digest, op, s', del)
  }

  predicate OnVolumesOnly(op: Op) {
    && !op.StartMachine? && !op.RemoveMachine? && !op.CommitMachineTo?
    && !op.AddEntries? && !op.RemoveEntries?
  }

  function Written(p: Pool, n: Name, bytes: Bytes): Pool {
    if n in p then p[n := Vol(p[n].backing, bytes)] else p
  }

  /** What one operation comes to when no call fails. */
  ghost predicate Unbroken(s: State, w: string, digest: Vol -> Hash, op: Op, s': State) {
    match op
    case ImportImage(image, remote) => s'.vols == Import(s.vols, image, remote).pool
    case ImportStream(image, bytes) => s'.vols == ImportRaw(s.vols, image, bytes, digest(Vol(None, bytes))).pool
    case TagLayer(image, top) => s'.vols == Retag(s.vols, image, top).pool
    case RemoveTag(image) => s'.vols == RemoveImage(s.vols, image).pool
    case SpawnFrom(name, base) => s'.vols == Spawn(s.vols, name, base).pool
    case GuestWrites(name, bytes) => s'.vols == Written(s.vols, Work(name), bytes)
    case PruneStore => s'.vols == Sweep(s.vols)
    case _ => UnbrokenOnHost(s, w, digest, op, s')
  }

  ghost predicate UnbrokenOnHost(s: State, w: string, digest: Vol -> Hash, op: Op, s': State) {
    match op
    case StartMachine(cfg) => CanStart(s, w, cfg) ==> Runs(s, w, cfg, s')
    case RemoveMachine(name, removeDHCP, removeBoot) => s' == Remove(s, name, removeDHCP, removeBoot).0
    case CommitMachineTo(name, cfg) => s' == CommitMachine(s, digest, name, cfg).0
    case AddEntries(id, count) =>
      HostsAdded(s.networks, s'.networks, w, id, count, CanAdd(s.networks, w, id, count))
    case RemoveEntries(mac) =>
      w in s.networks ==> s'.networks == s.networks[w := s.networks[w].(hosts := WithoutMac(s.networks[w].hosts, mac))]
    case _ => true
  }

  ghost predicate CanStart(s: State, w: string, cfg: VMConfig) {
    exists id :: RunChecks(s, w, cfg, id) && Feasible(s, w, cfg, id)
  }

  ghost predicate Runs(s: State, w: string, cfg: VMConfig, s': State) {
    exists p :: Started(s, w, cfg, p, s') && p.Defined? && p.active
  }

  /** The operation would have to clean up after a failed deletion a layer that volumes stand on. */
  ghost predicate MayBreak(s: State, digest: Vol -> Hash, op: Op) {
    match op
    case ImportStream(image, bytes) => StreamOverwrites(s.vols, image, digest(Vol(None, bytes)))
    case CommitMachineTo(name, cfg) => CommitOverwrites(s, digest, name, cfg)
    case _ => false
  }

  /** The operation gets to store a layer that is not there yet. */
  ghost predicate MayMisname(s: State, digest: Vol -> Hash, op: Op) {
    match op
    case ImportImage(_, remote) => remote.virterImage && Fetches(s.vols, remote.layers)
    case ImportStream(image, bytes) => StreamFetches(s.vols, image, digest(Vol(None, bytes)))
    case CommitMachineTo(name, cfg) => CommitFetches(s, digest, name, cfg)
    case _ => false
  }

  /** A step in which no deletion of a volume failed, or none that matters. */
  ghost predicate SafeStep(s: State, w: string, digest: Vol -> Hash, op: Op, s': State) {
    exists del :: Step(s, w, digest, op, s', del) && (del ==> !MayBreak(s, digest, op))
  }

  /** The roots an operation is asked to create, replace, write or delete. */
  ghost predicate Touches(s: State, op: Op, root: Name) {
    match op
    case ImportImage(image, _) => root == Tag(image)
    case ImportStream(image, _) => root == Tag(image)
    case TagLayer(image, _) => root == Tag(image)
    case RemoveTag(image) => root == Tag(image)
    case SpawnFrom(_, _) => false
    case GuestWrites(name, _) => root == Work(name)
    case StartMachine(_) => false
    case RemoveMachine(name, _, removeBoot) => name in s.domains && root in Doomed(s.domains[name], name, removeBoot)
    case CommitMachineTo(name, cfg) =>
      name in s.domains && (root == Tag(cfg.image) || root == Work(name) || root in s.domains[name].disks)
    case PruneStore => false
    case AddEntries(_, _) => false
    case RemoveEntries(_) => false
  }

  /** Domains own working volumes only. */
  ghost predicate DisksAreWork(domains: map<string, Domain>) {
    forall d :: d in domains ==> forall n :: n in domains[d].disks ==> n.Work?
  }

  ghost predicate Healthy(s: State) {
    Sound(s.vols) && LiveDomains(s.domains) && DisksAreWork(s.domains)
  }

  // ---------------------------------------------------------------- soundness

  lemma {:induction false} NotYetCreated(names: seq<Name>, top: Option<Name>, data: Bytes, m: nat)
    requires m < |names| && Distinct(names[..m + 1])
    ensures names[m] !in Created(names, top, data, m) && Distinct(names[..m])
  {
    CreatedKeys(names, top, data, m);
    var seen := names[..m + 1];
    assert seen[m] == names[m] && names[..m] == seen[..m];
    forall j | 0 <= j < m ensures names[..m][j] != names[m] {
      assert seen[j] != seen[m];
    }
  }

  lemma {:induction false} CreatedSound(p: Pool, names: seq<Name>, top: Option<Name>, data: Bytes, m: nat)
    requires Sound(p) && m <= |names| && Distinct(names[..m])
    requires forall i :: 0 <= i < |names| ==> names[i] !in p && names[i].Work?
    requires top.Some? ==> top.value.Layer? && (m > 0 ==> top.value in p)
    ensures Sound(p + Created(names, top, data, m))
    decreases m
  {
    if m == 0 {
      assert p + Created(names, top, data, 0) == p;
    } else {
      NotYetCreated(names, top, data, m - 1);
      CreatedSound(p, names, top, data, m - 1);
      var q := p + Created(names, top, data, m - 1);
      CreateSound(q, names[m - 1], NewVolume(top, data, m - 1));
      assert p + Created(names, top, data, m) == q[names[m - 1] := NewVolume(top, data, m - 1)];
    }
  }

  lemma {:induction false} StartedHealthy(s: State, w: string, cfg: VMConfig, p: Progress, s': State)
    requires Healthy(s) && Started(s, w, cfg, p, s') && (cfg.top.Some? ==> cfg.top.value.Layer?)
    ensures Healthy(s')
  {
    if p.Defined? {
      CreatedSound(s.vols, VolumeNames(cfg), cfg.top, p.data, p.m);
    }
  }

  lemma {:induction false} SpawnSound(p: Pool, name: string, base: Option<Name>)
    requires Sound(p) && (base.Some? ==> base.value.Layer?)
    ensures Sound(Spawn(p, name, base).pool)
  {
    if (base.Some? ==> base.value in p) && Work(name) !in p {
      CreateSound(p, Work(name), Vol(base, []));
    }
  }

  lemma {:induction false} SameDisksAreWork(domains: map<string, Domain>, domains': map<string, Domain>)
    requires DisksAreWork(domains) && SameDisks(domains, domains')
    ensures DisksAreWork(domains')
  {
    forall d | d in domains' ensures forall n :: n in domains'[d].disks ==> n.Work? {
      assert domains'[d].disks == domains[d].disks;
    }
  }

  lemma {:induction false} StoreStepSound(p: Pool, digest: Vol -> Hash, op: Op, p': Pool, del: bool)
    requires Sound(p) && Acceptable(op) && StoreStep(p, digest, op, p', del)
    requires del && op.ImportStream? ==> !StreamOverwrites(p, op.image, digest(Vol(None, op.bytes)))
    ensures Sound(p')
  {
    match op
    case ImportImage(image, remote) =>
      ImportOutcomeSound(p, image, remote, p', del);
    case ImportStream(image, bytes) =>
      StreamOutcomeSound(p, image, bytes, digest(Vol(None, bytes)), p', del);
    case TagLayer(image, top) =>
      RetagOutcomeSound(p, image, top, p');
    case RemoveTag(image) =>
      RemoveOutcomeSound(p, image, p');
    case SpawnFrom(name, base) =>
      SpawnSound(p, name, base);
    case GuestWrites(name, bytes) =>
      if Work(name) in p {
        UploadSound(p, Work(name), bytes);
      }
    case PruneStore =>
  }

  lemma {:induction false} HostStepHealthy(s: State, w: string, digest: Vol -> Hash, op: Op, s': State, del: bool)
    requires Healthy(s) && Acceptable(op) && HostStep(s, w, digest, op, s', del)
    requires del && op.CommitMachineTo? ==> !CommitOverwrites(s, digest, op.name, op.target)
    ensures Healthy(s')
  {
    match op
    case StartMachine(cfg) =>
      var p :| Started(s, w, cfg, p, s');
      StartedHealthy(s, w, cfg, p, s');
    case RemoveMachine(name, removeDHCP, removeBoot) =>
      var done :| Attempt(s, s', name, removeDHCP, removeBoot, done);
      AttemptSameDisks(s, s', name, removeDHCP, removeBoot, done);
      SameDisksAreWork(s.domains, s'.domains);
    case CommitMachineTo(name, cfg) =>
      CommitOutcomeSound(s, digest, name, cfg, s', del);
      SameDisksAreWork(s.domains, s'.domains);
    case AddEntries(_, _) =>
    case RemoveEntries(_) =>
  }

  /** Every operation keeps the host healthy, whichever of its calls fail, except for the deletions MayBreak names. */
  lemma {:induction false} StepHealthy(s: State, w: string, digest: Vol -> Hash, op: Op, s': State, del: bool)
    requires Healthy(s) && Step(s, w, digest, op, s', del)
    requires del ==> !MayBreak(s, digest, op)
    ensures Healthy(s')
  {
    if OnVolumesOnly(op) {
      StoreStepSound(s.vols, digest, op, s'.vols, del);
    } else {
      HostStepHealthy(s, w, digest, op, s', del);
    }
  }

  /** If deletions may fail, too, the host stays healthy exactly if the operation is not one that MayBreak names. */
  lemma {:induction false} StepHealthyExactly(s: State, w: string, digest: Vol -> Hash, op: Op)
    requires Healthy(s) && Acceptable(op)
    ensures (forall s' :: Step(s, w, digest, op, s', true) ==> Healthy(s')) <==> !MayBreak(s, digest, op)
  {
    if MayBreak(s, digest, op) {
      match op {
        case ImportStream(image, bytes) =>
          var id := digest(Vol(None, bytes));
          StreamSoundExactly(s.vols, image, bytes, id);
          var p' :| StreamOutcome(s.vols, image, bytes, id, p', true) && !Sound(p');
          assert Step(s, w, digest, op, s.(vols := p'), true);
        case CommitMachineTo(name, cfg) =>
          CommitSoundExactly(s, digest, name, cfg);
          var s' :| CommitOutcome(s, digest, name, cfg, s', true) && !Sound(s'.vols);
          assert Step(s, w, digest, op, s', true);
      }
    } else {
      forall s' | Step(s, w, digest, op, s', true) ensures Healthy(s') {
        StepHealthy(s, w, digest, op, s', true);
      }
    }
  }

  // ---------------------------------------------------------------- content addressing

  /** Remote images list their layers under the digests of their content; ImageImport relies on it. */
  ghost predicate Trusted(digest: Vol -> Hash, op: Op) {
    op.ImportImage? && op.remote.virterImage ==> WellFormed(RemoteBlobs(op.remote.layers), digest)
  }

  /** The loop of the import, from the i-th layer on. */
  lemma {:induction false} ImportLayersContentAddressed(p: Pool, digest: Vol -> Hash, layers: seq<RemoteLayer>, i: nat)
    requires ContentAddressed(p, digest) && i <= |layers| && WellFormed(RemoteBlobs(layers), digest)
    ensures ContentAddressed(ImportLayers(p, layers[i..], Below(RemoteBlobs(layers), i)).pool, digest)
    decreases |layers| - i
  {
    if i < |layers| && layers[i].virterLayer {
      var blobs := RemoteBlobs(layers);
      var layer, top := Layer(blobs[i].id), Below(blobs, i);
      assert layers[i..][0].blob == blobs[i] && layers[i..][1..] == layers[i + 1..];
      assert Below(blobs, i + 1) == Some(layer);
      if layer in p {
        ImportLayersContentAddressed(p, digest, layers, i + 1);
      } else {
        var p1 := p[layer := Vol(top, blobs[i].bytes)];
        assert RightDigest(blobs, digest, i);
        assert ContentAddressed(p1, digest);
        ImportLayersContentAddressed(p1, digest, layers, i + 1);
      }
    }
  }

  lemma {:induction false} ImportContentAddressed(p: Pool, digest: Vol -> Hash, image: string, remote: RemoteImage)
    requires ContentAddressed(p, digest) && WellFormed(RemoteBlobs(remote.layers), digest)
    ensures ContentAddressed(Import(p, image, remote).pool, digest)
  {
    assert remote.layers[0..] == remote.layers;
    ImportLayersContentAddressed(p, digest, remote.layers, 0);
    var r := ImportLayers(p, remote.layers, None);
    if r.top.Some? {
      RetagContentAddressed(r.pool, digest, image, r.top.value);
    }
  }

  lemma {:induction false} ImportRawContentAddressed(p: Pool, digest: Vol -> Hash, image: string, bytes: Bytes)
    requires ContentAddressed(p, digest)
    ensures ContentAddressed(ImportRaw(p, image, bytes, digest(Vol(None, bytes))).pool, digest)
  {
    var v := Vol(None, bytes);
    var p1 := if Layer(digest(v)) in p then p else p[Layer(digest(v)) := v];
    assert ContentAddressed(p1, digest);
    RetagContentAddressed(p1, digest, image, Layer(digest(v)));
  }

  lemma {:induction false} CommitContentAddressed(s: State, digest: Vol -> Hash, name: string, cfg: CommitConfig)
    requires ContentAddressed(s.vols, digest)
    ensures ContentAddressed(CommitMachine(s, digest, name, cfg).0.vols, digest)
  {
    if name in s.domains && Allowed(s.domains[name], cfg).Pass? {
      RemoveDisksShrinks(s.vols, s.domains[name].disks, Some(Work(name)));
      var (s1, removed) := WithoutMachine(s, name, cfg);
      SubmapContentAddressed(s.vols, s1.vols, digest);
      if Work(name) in s1.vols {
        var id := digest(s1.vols[Work(name)]);
        var layered := ToLayer(s1.vols, Work(name), id).pool;
        assert ContentAddressed(layered, digest);
        RetagContentAddressed(layered, digest, cfg.image, Layer(id));
      }
    }
  }

  lemma {:induction false} StartedNoNewLayers(s: State, w: string, cfg: VMConfig, p: Progress, s': State)
    requires Started(s, w, cfg, p, s')
    ensures NoNewLayers(s.vols, s'.vols)
  {
    if p.Defined? {
      var names := VolumeNames(cfg);
      CreatedKeys(names, cfg.top, p.data, p.m);
      assert forall n :: n in names[..p.m] ==> n.Work?;
    }
  }

  /** The operations that do not store layers leave the layers as they are, or take some away. */
  lemma {:induction false} OthersNoNewLayers(s: State, w: string, digest: Vol -> Hash, op: Op, s': State, del: bool)
    requires Healthy(s) && Step(s, w, digest, op, s', del)
    requires !op.ImportImage? && !op.ImportStream? && !op.CommitMachineTo?
    ensures NoNewLayers(s.vols, s'.vols)
  {
    match op
    case TagLayer(image, top) =>
      RetagOutcomeNoNewLayers(s.vols, image, top, s'.vols);
    case RemoveTag(image) =>
      RemoveOutcomeSound(s.vols, image, s'.vols);
    case StartMachine(cfg) =>
      var p :| Started(s, w, cfg, p, s');
      StartedNoNewLayers(s, w, cfg, p, s');
    case _ =>
  }

  lemma {:induction false} UnbrokenKeepsNames(s: State, w: string, digest: Vol -> Hash, op: Op, s': State)
    requires ContentAddressed(s.vols, digest) && Unbroken(s, w, digest, op, s') && Trusted(digest, op)
    requires op.ImportImage? || op.ImportStream? || op.CommitMachineTo?
    ensures ContentAddressed(s'.vols, digest)
  {
    match op
    case ImportImage(image, remote) =>
      if remote.virterImage {
        ImportContentAddressed(s.vols, digest, image, remote);
      }
    case ImportStream(image, bytes) =>
      ImportRawContentAddressed(s.vols, digest, image, bytes);
    case CommitMachineTo(name, cfg) =>
      CommitContentAddressed(s, digest, name, cfg);
  }

  lemma {:induction false} StoringNamesExactly(s: State, w: string, digest: Vol -> Hash, op: Op)
    requires Healthy(s) && Injective(digest) && ContentAddressed(s.vols, digest)
    requires op.ImportImage? || op.ImportStream?
    ensures (forall s', del :: Step(s, w, digest, op, s', del) ==> ContentAddressed(s'.vols, digest))
            <==> !MayMisname(s, digest, op)
  {
    match op
    case ImportImage(image, remote) =>
      ImportNamesExactly(s.vols, digest, image, remote);
      if p', del :| ImportOutcome(s.vols, image, remote, p', del) && !ContentAddressed(p', digest) {
        assert Step(s, w, digest, op, s.(vols := p'), del);
      }
    case ImportStream(image, bytes) =>
      StreamNamesExactly(s.vols, digest, image, bytes);
      var id := digest(Vol(None, bytes));
      if p', del :| StreamOutcome(s.vols, image, bytes, id, p', del) && !ContentAddressed(p', digest) {
        assert Step(s, w, digest, op, s.(vols := p'), del);
      }
  }

  lemma {:induction false} CommittingNamesExactly(s: State, w: string, digest: Vol -> Hash, op: Op)
    requires Healthy(s) && Injective(digest) && ContentAddressed(s.vols, digest) && op.CommitMachineTo?
    ensures (forall s', del :: Step(s, w, digest, op, s', del) ==> ContentAddressed(s'.vols, digest))
            <==> !MayMisname(s, digest, op)
  {
    CommitNamesExactly(s, digest, op.name, op.target);
    if s', del :| CommitOutcome(s, digest, op.name, op.target, s', del) && !ContentAddressed(s'.vols, digest) {
      assert Step(s, w, digest, op, s', del);
    }
  }

  /**
   Whichever calls fail, every layer stays named by its own digest, exactly if the operation does not
   get to store a new layer.
   */
  lemma {:induction false} StepNamesExactly(s: State, w: string, digest: Vol -> Hash, op: Op)
    requires Healthy(s) && Acceptable(op) && Injective(digest) && ContentAddressed(s.vols, digest)
    ensures (forall s', del :: Step(s, w, digest, op, s', del) ==> ContentAddressed(s'.vols, digest))
            <==> !MayMisname(s, digest, op)
  {
    if op.ImportImage? || op.ImportStream? {
      StoringNamesExactly(s, w, digest, op);
    } else if op.CommitMachineTo? {
      CommittingNamesExactly(s, w, digest, op);
    } else {
      forall s', del | Step(s, w, digest, op, s', del) ensures ContentAddressed(s'.vols, digest) {
        OthersNoNewLayers(s, w, digest, op, s', del);
        SubmapContentAddressed(s.vols, s'.vols, digest);
      }
    }
  }

  /** No call failed while a layer was stored, or none was stored. */
  ghost predicate KeepsNames(s: State, w: string, digest: Vol -> Hash, op: Op, s': State) {
    (Unbroken(s, w, digest, op, s') && Trusted(digest, op)) || !MayMisname(s, digest, op)
  }

  lemma {:induction false} StepKeepsNames(s: State, w: string, digest: Vol -> Hash, op: Op, s': State, del: bool)
    requires Healthy(s) && Injective(digest) && ContentAddressed(s.vols, digest)
    requires Step(s, w, digest, op, s', del) && KeepsNames(s, w, digest, op, s')
    ensures ContentAddressed(s'.vols, digest)
  {
    if MayMisname(s, digest, op) {
      UnbrokenKeepsNames(s, w, digest, op, s');
    } else {
      StepNamesExactly(s, w, digest, op);
    }
  }

  // ---------------------------------------------------------------- nobody else's chain

  lemma {:induction false} StoreStepKeepsChain(s: State, digest: Vol -> Hash, op: Op, p': Pool, del: bool, q: seq<Name>)
    requires Sound(s.vols) && Acceptable(op) && StoreStep(s.vols, digest, op, p', del)
    requires del && op.ImportStream? ==> !StreamOverwrites(s.vols, op.image, digest(Vol(None, op.bytes)))
    requires Path(s.vols, q) && !q[|q| - 1].Layer? && !Touches(s, op, q[|q| - 1])
    ensures KeepsChain(s.vols, p', q)
  {
    match op
    case ImportImage(image, remote) =>
      ImportOutcomeKeepsOthers(s.vols, image, remote, p', del, q);
    case ImportStream(image, bytes) =>
      StreamOutcomeKeepsOthers(s.vols, image, bytes, digest(Vol(None, bytes)), p', del, q);
    case TagLayer(image, top) =>
      RetagOutcomeKeepsOthers(s.vols, image, top, p', q);
    case RemoveTag(image) =>
      RemoveOutcomeKeepsOthers(s.vols, image, p', q);
    case SpawnFrom(name, base) =>
      KeepsWhatGrows(s.vols, p', q);
    case GuestWrites(name, bytes) =>
      WrittenKeepsOthers(s.vols, Work(name), bytes, q);
    case PruneStore =>
      SweptKeepsChain(s.vols, p', q);
  }

  lemma {:induction false} WrittenKeepsOthers(p: Pool, n: Name, bytes: Bytes, q: seq<Name>)
    requires Path(p, q) && n.Work? && q[|q| - 1] != n
    ensures KeepsChain(p, Written(p, n, bytes), q)
  {
    PathMembers(p, q);
    RootIsLast(p, n, q);
    PathFrame(p, Written(p, n, bytes), q);
  }

  lemma {:induction false} HostStepKeepsChain(s: State, w: string, digest: Vol -> Hash, op: Op, s': State, del: bool,
                                              q: seq<Name>)
    requires Healthy(s) && HostStep(s, w, digest, op, s', del)
    requires del && op.CommitMachineTo? ==> !CommitOverwrites(s, digest, op.name, op.target)
    requires Path(s.vols, q) && !q[|q| - 1].Layer? && !Touches(s, op, q[|q| - 1])
    ensures KeepsChain(s.vols, s'.vols, q)
  {
    match op
    case StartMachine(cfg) =>
      var p :| Started(s, w, cfg, p, s');
      StartedKeepsOthers(s, w, cfg, p, s', q);
    case RemoveMachine(name, removeDHCP, removeBoot) =>
      var done :| Attempt(s, s', name, removeDHCP, removeBoot, done);
      AttemptKeepsOthers(s, s', name, removeDHCP, removeBoot, done, q);
    case CommitMachineTo(name, cfg) =>
      CommitOutcomeKeepsOthers(s, digest, name, cfg, s', del, q);
    case AddEntries(_, _) =>
      KeepsWhatGrows(s.vols, s'.vols, q);
    case RemoveEntries(_) =>
      KeepsWhatGrows(s.vols, s'.vols, q);
  }

  /** An operation leaves the whole chain of every root it does not touch as it was, whichever of its calls fail. */
  lemma {:induction false} StepKeepsChain(s: State, w: string, digest: Vol -> Hash, op: Op, s': State, del: bool,
                                          q: seq<Name>)
    requires Healthy(s) && Step(s, w, digest, op, s', del)
    requires del ==> !MayBreak(s, digest, op)
    requires Path(s.vols, q) && !q[|q| - 1].Layer? && !Touches(s, op, q[|q| - 1])
    ensures KeepsChain(s.vols, s'.vols, q)
  {
    if OnVolumesOnly(op) {
      StoreStepKeepsChain(s, digest, op, s'.vols, del, q);
    } else {
      HostStepKeepsChain(s, w, digest, op, s', del, q);
    }
  }

  lemma {:induction false} SweptKeepsChain(p: Pool, p': Pool, q: seq<Name>)
    requires PartlySwept(p, p') && Path(p, q) && !q[|q| - 1].Layer?
    ensures KeepsChain(p, p', q)
  {
    var none: set<Name> := {};
    assert p - none == p && p' - none == p';
    SameSweepKeepsRoot(p, p', none, q);
  }

  lemma {:induction false} StartedKeepsOthers(s: State, w: string, cfg: VMConfig, p: Progress, s': State, q: seq<Name>)
    requires Started(s, w, cfg, p, s') && Path(s.vols, q)
    ensures KeepsChain(s.vols, s'.vols, q)
  {
    PathMembers(s.vols, q);
    if p.Defined? {
      CreatedKeys(VolumeNames(cfg), cfg.top, p.data, p.m);
    }
    PathFrame(s.vols, s'.vols, q);
  }

  lemma {:induction false} SafeStepKeepsChain(s: State, w: string, digest: Vol -> Hash, op: Op, s': State, q: seq<Name>)
    requires Healthy(s) && SafeStep(s, w, digest, op, s')
    requires Path(s.vols, q) && !q[|q| - 1].Layer? && !Touches(s, op, q[|q| - 1])
    ensures KeepsChain(s.vols, s'.vols, q)
  {
    var del :| Step(s, w, digest, op, s', del) && (del ==> !MayBreak(s, digest, op));
    StepKeepsChain(s, w, digest, op, s', del, q);
  }

  // ---------------------------------------------------------------- histories

  /** trace lists the states between the operations. */
  ghost predicate History(trace: seq<State>, w: string, digest: Vol -> Hash, ops: seq<Op>) {
    && |trace| == |ops| + 1
    && forall i, j :: 0 <= i < |ops| && j == i + 1 ==> SafeStep(trace[i], w, digest, ops[i], trace[j])
  }

  /**
   In every history each volume's backing layer exists and no chain is circular, at all times,
   whichever calls fail.
   */
  lemma {:induction false} HistoryHealthy(trace: seq<State>, w: string, digest: Vol -> Hash, ops: seq<Op>, k: nat)
    requires History(trace, w, digest, ops) && Healthy(trace[0]) && k < |trace|
    ensures Healthy(trace[k])
    decreases k
  {
    if k > 0 {
      HistoryHealthy(trace, w, digest, ops, k - 1);
      var del :| && Step(trace[k - 1], w, digest, ops[k - 1], trace[k], del)
                 && (del ==> !MayBreak(trace[k - 1], digest, ops[k - 1]));
      StepHealthy(trace[k - 1], w, digest, ops[k - 1], trace[k], del);
    }
  }

  /**
   Nor does any layer get a name that is not its digest, also when it is deleted and made again, as
   long as no call fails in the operations that get to store one.
   */
  lemma {:induction false} HistoryContentAddressed(trace: seq<State>, w: string, digest: Vol -> Hash, ops: seq<Op>,
                                                   k: nat)
    requires History(trace, w, digest, ops) && Healthy(trace[0]) && k < |trace|
    requires Injective(digest) && ContentAddressed(trace[0].vols, digest)
    requires forall i, j :: 0 <= i < k && j == i + 1 ==> KeepsNames(trace[i], w, digest, ops[i], trace[j])
    ensures ContentAddressed(trace[k].vols, digest)
    decreases k
  {
    if k > 0 {
      HistoryContentAddressed(trace, w, digest, ops, k - 1);
      HistoryHealthy(trace, w, digest, ops, k - 1);
      var del :| Step(trace[k - 1], w, digest, ops[k - 1], trace[k], del);
      StepKeepsNames(trace[k - 1], w, digest, ops[k - 1], trace[k], del);
    }
  }

  /** None of the operations from a on, before b, touches the root. */
  ghost predicate Untouched(trace: seq<State>, ops: seq<Op>, a: nat, b: nat, root: Name)
    requires |trace| == |ops| + 1 && b <= |ops|
  {
    forall i :: a <= i < b ==> !Touches(trace[i], ops[i], root)
  }

  lemma {:induction false} OneMoreStepKeeps(s0: State, s: State, w: string, digest: Vol -> Hash, op: Op, s': State,
                                            q: seq<Name>)
    requires Path(s0.vols, q) && !q[|q| - 1].Layer? && KeepsChain(s0.vols, s.vols, q)
    requires Healthy(s) && SafeStep(s, w, digest, op, s') && !Touches(s, op, q[|q| - 1])
    ensures KeepsChain(s0.vols, s'.vols, q)
  {
    SafeStepKeepsChain(s, w, digest, op, s', q);
    KeepsInTwo(s0.vols, s.vols, s'.vols, q);
  }

  /** In every history an image or volume keeps its whole chain, volume by volume, until it is touched itself. */
  lemma {:induction false} HistoryKeepsChain(trace: seq<State>, w: string, digest: Vol -> Hash, ops: seq<Op>,
                                             a: nat, b: nat, q: seq<Name>)
    requires History(trace, w, digest, ops) && Healthy(trace[0]) && a <= b <= |ops|
    requires Path(trace[a].vols, q) && !q[|q| - 1].Layer? && Untouched(trace, ops, a, b, q[|q| - 1])
    ensures KeepsChain(trace[a].vols, trace[b].vols, q)
    decreases b
  {
    if a == b {
      KeepsWhatGrows(trace[a].vols, trace[a].vols, q);
    } else {
      HistoryKeepsChain(trace, w, digest, ops, a, b - 1, q);
      HistoryHealthy(trace, w, digest, ops, b - 1);
      OneMoreStepKeeps(trace[a], trace[b - 1], w, digest, ops[b - 1], trace[b], q);
    }
  }

  /** Said of images: the layers of a tag stay the same list until an operation names the tag. */
  lemma {:induction false} HistoryKeepsImage(trace: seq<State>, w: string, digest: Vol -> Hash, ops: seq<Op>,
                                             a: nat, b: nat, image: string, top: Name, blobs: seq<Blob>)
    requires History(trace, w, digest, ops) && Healthy(trace[0]) && a <= b <= |ops|
    requires DependsOn(trace[a].vols, Tag(image), top) && LayersOf(trace[a].vols, top, blobs)
    requires Untouched(trace, ops, a, b, Tag(image))
    ensures DependsOn(trace[b].vols, Tag(image), top) && LayersOf(trace[b].vols, top, blobs)
  {
    var p, p' := trace[a].vols, trace[b].vols;
    var q: seq<Name> :| ChainBlobs(p, top, q, blobs);
    PathExtend(p, q, Tag(image));
    var t := q + [Tag(image)];
    HistoryKeepsChain(trace, w, digest, ops, a, b, t);
    forall i | 0 <= i < |q| ensures q[i] in p && q[i] in p' && p'[q[i]] == p[q[i]] {
      assert t[i] == q[i];
    }
    PathFrame(p, p', q);
    assert t[|q|] == Tag(image);
    assert ChainBlobs(p', top, q, blobs);
  }

  // ---------------------------------------------------------------- runs with failing calls

  /**
   Carries out one operation, any of whose calls may fail.  The result is a step, one with failed
   deletions only if some failed; and if no call failed, nothing about it is broken.
   */
  method Perform(c: Connection, op: Op)
    requires Acceptable(op) && Healthy(c.Now())
    modifies c`vols, c`domains, c`networks, c`faults, c`deleteFaults
    ensures c.faults >= old(c.faults) && c.deleteFaults >= old(c.deleteFaults)
    ensures Step(old(c.Now()), c.accessNetwork, c.digest, op, c.Now(), c.deleteFaults != old(c.deleteFaults))
    ensures c.faults == old(c.faults) && NoRepeats(old(c.networks)) ==>
              Unbroken(old(c.Now()), c.accessNetwork, c.digest, op, c.Now())
    ensures c.deleteFaults == old(c.deleteFaults) || !MayBreak(old(c.Now()), c.digest, op) ==> Healthy(c.Now())
  {
    ghost var s := c.Now();
    if OnVolumesOnly(op) {
      PerformOnStore(c, op);
    } else {
      PerformOnHost(c, op);
    }
    StepHealthyIf(s, c.accessNetwork, c.digest, op, c.Now(), c.deleteFaults != old(c.deleteFaults));
  }

  method PerformOnStore(c: Connection, op: Op)
    requires Acceptable(op) && OnVolumesOnly(op) && Sound(c.vols)
    modifies c`vols, c`faults, c`deleteFaults
    ensures c.faults >= old(c.faults) && c.deleteFaults >= old(c.deleteFaults)
    ensures StoreStep(old(c.vols), c.digest, op, c.vols, c.deleteFaults != old(c.deleteFaults))
    ensures c.faults == old(c.faults) ==> Unbroken(old(c.Now()), c.accessNetwork, c.digest, op, c.Now())
  {
    match op
    case ImportImage(image, remote) =>
      var _ := ImageImport(c, image, remote);
    case ImportStream(image, bytes) =>
      var _ := ImageImportFromReader(c, image, bytes);
    case TagLayer(image, top) =>
      var _ := MakeImage(c, image, top);
    case RemoveTag(image) =>
      var _ := ImageRm(c, image);
    case SpawnFrom(name, base) =>
      var _ := ImageSpawn(c, name, base);
    case GuestWrites(name, bytes) =>
      if Work(name) in c.vols {
        c.vols := c.vols[Work(name) := Vol(c.vols[Work(name)].backing, bytes)];
      }
    case PruneStore =>
      var _ := PruneLayers(c);
  }

  method PerformOnHost(c: Connection, op: Op)
    requires Acceptable(op) && !OnVolumesOnly(op) && Healthy(c.Now())
    modifies c`vols, c`domains, c`networks, c`faults, c`deleteFaults
    ensures c.faults >= old(c.faults) && c.deleteFaults >= old(c.deleteFaults)
    ensures HostStep(old(c.Now()), c.accessNetwork, c.digest, op, c.Now(), c.deleteFaults != old(c.deleteFaults))
    ensures c.faults == old(c.faults) && NoRepeats(old(c.networks)) ==>
              Unbroken(old(c.Now()), c.accessNetwork, c.digest, op, c.Now())
  {
    ghost var s, w, faults := c.Now(), c.accessNetwork, c.faults;
    match op
    case StartMachine(cfg) =>
      var r, p := VMRun(c, cfg);
      assert Started(s, c.accessNetwork, cfg, p, c.Now());
      assert c.faults == faults && CanStart(s, c.accessNetwork, cfg) ==> r.Pass?;
    case RemoveMachine(name, removeDHCP, removeBoot) =>
      var r := VMRm(c, name, removeDHCP, removeBoot);
      assert Attempt(s, c.Now(), name, removeDHCP, removeBoot, r.Pass?);
    case CommitMachineTo(name, target) =>
      var _ := VMCommit(c, name, target);
    case AddEntries(id, count) =>
      var r := NetworkHostAdd(c, id, count);
      assert HostsAdded(s.networks, c.networks, c.accessNetwork, id, count, r.Pass?);
    case RemoveEntries(mac) =>
      if w in s.networks && NoRepeats(s.networks) {
        DistinctIPs(s.networks[w].hosts, mac);
      }
      var _ := RemoveMACDHCPEntries(c, mac);
  }

  lemma {:induction false} StepHealthyIf(s: State, w: string, digest: Vol -> Hash, op: Op, s': State, del: bool)
    requires Healthy(s) && Step(s, w, digest, op, s', del)
    ensures !del || !MayBreak(s, digest, op) ==> Healthy(s')
  {
    if !del || !MayBreak(s, digest, op) {
      StepHealthy(s, w, digest, op, s', del);
    }
  }
}

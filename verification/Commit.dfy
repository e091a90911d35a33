/** Committing a machine: its boot volume becomes the top layer of an image, the machine goes. */
module Commit {
  import opened Errors
  import opened Wrappers
  import opened Volumes
  import opened Collector
  import opened Libvirt
  import opened Layers
  import opened Images
  import opened Digests
  import opened Removal

  datatype CommitConfig = CommitConfig(image: string, shutdown: bool, resetMachineId: bool, staticDhcp: bool)

  /** Whether the machine may be stopped, and runs if its identity is to be reset. */
  function Allowed(d: Domain, cfg: CommitConfig): Outcome<Error> {
    if d.active && !cfg.shutdown then Fail(ShutdownRequired)
    else if cfg.resetMachineId && !d.active then Fail(NotRunning)
    else Pass
  }

  /** The state once the machine is shut down; a transient domain is gone then. */
  function ShutDown(s: State, name: string): State
    requires name in s.domains
  {
    s.(domains := SetDomain(s.domains, name, s.domains[name].(active := false)))
  }

  function Stopped(s: State, name: string): State
    requires name in s.domains
  {
    if s.domains[name].active then ShutDown(s, name) else s
  }

  /** The volumes once everything but the boot volume is gone. */
  function WithoutMachine(s: State, name: string, cfg: CommitConfig): (State, Outcome<Error>)
    requires name in s.domains
  {
    Remove(Stopped(s, name), name, !cfg.staticDhcp, false)
  }

  /** The new top layer from the boot volume, then the tag. */
  function BootToImage(p: Pool, digest: Vol -> Hash, name: string, image: string): Changed {
    var boot := Work(name);
    if boot !in p then Changed(p, Fail(MissingRootLayer))
    else
      var id := digest(p[boot]);
      Retag(ToLayer(p, boot, id).pool, image, Layer(id))
  }

  /** What follows once the machine is stopped. */
  function FromStopped(s: State, digest: Vol -> Hash, name: string, cfg: CommitConfig): (State, Outcome<Error>) {
    var (s1, removed) := Remove(s, name, !cfg.staticDhcp, false);
    if removed.Fail? then (s1, removed)
    else
      var made := BootToImage(s1.vols, digest, name, cfg.image);
      (s1.(vols := made.pool), made.outcome)
  }

  /** VMCommit when no call fails. */
  function CommitMachine(s: State, digest: Vol -> Hash, name: string, cfg: CommitConfig): (State, Outcome<Error>) {
    if name !in s.domains then (s, Fail(NoDomain))
    else if Allowed(s.domains[name], cfg).Fail? then (s, Allowed(s.domains[name], cfg))
    else FromStopped(Stopped(s, name), digest, name, cfg)
  }

  // ---------------------------------------------------------------- how a commit can end

  /** Making the image goes through or breaks off. */
  ghost predicate BootOutcome(p: Pool, digest: Vol -> Hash, name: string, image: string, p': Pool, del: bool) {
    || p' == p
    || (Work(name) in p && EndsTagged(p, Work(name), digest(p[Work(name)]), image, p', del))
  }

  /** Removing the machine, as it is in b, breaks off; or it is gone and making the image goes as far as it goes. */
  ghost predicate EndsFrom(b: State, digest: Vol -> Hash, name: string, cfg: CommitConfig, s': State, del: bool) {
    var (s1, removed) := Remove(b, name, !cfg.staticDhcp, false);
    || Attempt(b, s', name, !cfg.staticDhcp, false, false)
    || (&& removed.Pass? && s' == s1.(vols := s'.vols)
        && BootOutcome(s1.vols, digest, name, cfg.image, s'.vols, del))
  }

  /**
   VMCommit goes through or breaks off.  The machine may still run when it is removed, because a
   poll that fails ends the waiting for its shutdown like a machine that has stopped.
   */
  ghost predicate CommitOutcome(s: State, digest: Vol -> Hash, name: string, cfg: CommitConfig, s': State, del: bool) {
    || s' == s
    || (&& name in s.domains && Allowed(s.domains[name], cfg).Pass?
        && (EndsFrom(s, digest, name, cfg, s', del) || EndsFrom(Stopped(s, name), digest, name, cfg, s', del)))
  }

  /** The part that works on volumes only. */
  method CommitBoot(c: Connection, name: string, image: string) returns (r: Outcome<Error>)
    modifies c`vols, c`faults, c`deleteFaults
    ensures c.faults >= old(c.faults) && c.deleteFaults >= old(c.deleteFaults)
    ensures c.faults == old(c.faults) ==> Changed(c.vols, r) == BootToImage(old(c.vols), c.digest, name, image)
    ensures BootOutcome(old(c.vols), c.digest, name, image, c.vols, c.deleteFaults != old(c.deleteFaults))
    ensures Sound(old(c.vols)) && c.deleteFaults == old(c.deleteFaults) ==> Sound(c.vols)
  {
    ghost var boot, p := Work(name), c.vols;
    var found := FindRawLayer(c, Work(name));
    if found.Failure? {
      return Fail(found.error);
    }
    if !found.value {
      return Fail(MissingRootLayer);
    }
    var layer := ToVolumeLayer(c, Work(name), None);
    ghost var q, del := c.vols, c.deleteFaults != old(c.deleteFaults);
    ConversionSoundIf(p, boot, Layer(c.digest(p[boot])), q, Got(layer), del);
    if layer.Failure? {
      assert ConvertedAndTagged(p, boot, c.digest(p[boot]), image, q, None, q, del);
      return Fail(layer.error);
    }
    r := MakeImage(c, image, layer.value);
    assert ConvertedAndTagged(p, boot, c.digest(p[boot]), image, q, Some(layer.value), c.vols,
                              c.deleteFaults != old(c.deleteFaults));
  }

  /** No domain appears, and those that stay have the disks they had. */
  ghost predicate SameDisks(domains: map<string, Domain>, domains': map<string, Domain>) {
    forall d :: d in domains' ==> d in domains && domains'[d].disks == domains[d].disks
  }

  lemma {:induction false} AttemptSameDisks(s: State, s': State, name: string, removeDHCP: bool, removeBoot: bool,
                                            done: bool)
    requires Attempt(s, s', name, removeDHCP, removeBoot, done)
    ensures SameDisks(s.domains, s'.domains)
  {
    if name in s.domains {
      var g := Goal(s, name, removeDHCP, removeBoot);
      assert g.domains == s.domains - {name};
      forall d | d in s'.domains ensures d in s.domains && s'.domains[d].disks == s.domains[d].disks {
        assert d != name ==> d in g.domains && g.domains[d] == s'.domains[d];
      }
    }
  }

  /** Removes the stopped machine but for its boot volume, and makes that the image. */
  method CommitStopped(c: Connection, name: string, cfg: CommitConfig) returns (r: Outcome<Error>)
    requires Sound(c.vols) && LiveDomains(c.domains)
    modifies c`vols, c`domains, c`networks, c`faults, c`deleteFaults
    ensures c.faults >= old(c.faults) && c.deleteFaults >= old(c.deleteFaults)
    ensures c.faults == old(c.faults) && NoRepeats(old(c.networks)) ==>
              (c.Now(), r) == FromStopped(old(c.Now()), c.digest, name, cfg)
    ensures EndsFrom(old(c.Now()), c.digest, name, cfg, c.Now(), c.deleteFaults != old(c.deleteFaults))
    ensures c.deleteFaults == old(c.deleteFaults) ==> Sound(c.vols)
    ensures LiveDomains(c.domains) && SameDisks(old(c.domains), c.domains)
  {
    r := VMRm(c, name, !cfg.staticDhcp, false);
    AttemptSameDisks(old(c.Now()), c.Now(), name, !cfg.staticDhcp, false, r.Pass?);
    if r.Fail? {
      return;
    }
    r := CommitBoot(c, name, cfg.image);
  }

  /**
   Asks the machine to shut down and waits.  Whether and when it stops is up to the guest; a poll
   that fails is taken for a stopped machine, a timeout is an error.
   */
  method VmShutdown(c: Connection, name: string) returns (r: Outcome<Error>)
    requires name in c.domains
    modifies c`domains, c`faults
    ensures c.faults >= old(c.faults)
    ensures c.domains == old(c.domains) || c.domains == Stopped(old(c.Now()), name).domains
    ensures c.faults == old(c.faults) ==> r.Pass? && c.domains == Stopped(old(c.Now()), name).domains
  {
    var activity := c.DescribeDomain(name);
    if activity.Failure? {
      return Fail(activity.error);
    }
    if !activity.value.active {
      return Pass;
    }
    var asked := c.Call();
    if !asked {
      return Fail(LibvirtFailure);
    }
    var waited := c.Call();
    var stops: bool, timedOut: bool := *, *;
    if waited || stops {
      c.domains := SetDomain(c.domains, name, c.domains[name].(active := false));
    }
    return if !waited && timedOut then Fail(LibvirtFailure) else Pass;
  }

  /** The part after the checks. */
  method ShutDownAndCommit(c: Connection, name: string, running: bool, cfg: CommitConfig) returns (r: Outcome<Error>)
    requires Sound(c.vols) && LiveDomains(c.domains) && name in c.domains && Allowed(c.domains[name], cfg).Pass?
    requires running == c.domains[name].active
    modifies c`vols, c`domains, c`networks, c`faults, c`deleteFaults
    ensures c.faults >= old(c.faults) && c.deleteFaults >= old(c.deleteFaults)
    ensures c.faults == old(c.faults) && NoRepeats(old(c.networks)) ==>
              (c.Now(), r) == FromStopped(Stopped(old(c.Now()), name), c.digest, name, cfg)
    ensures var del := c.deleteFaults != old(c.deleteFaults);
            || EndsFrom(old(c.Now()), c.digest, name, cfg, c.Now(), del)
            || EndsFrom(Stopped(old(c.Now()), name), c.digest, name, cfg, c.Now(), del)
    ensures c.deleteFaults == old(c.deleteFaults) ==> Sound(c.vols)
    ensures LiveDomains(c.domains) && SameDisks(old(c.domains), c.domains)
  {
    ghost var s := c.Now();
    if running && cfg.shutdown {
      r := VmShutdown(c, name);
      assert c.Now() == s || c.Now() == Stopped(s, name);
      if r.Fail? {
        StayingIsAttempt(c.Now(), name, !cfg.staticDhcp, false);
        return;
      }
    }
    r := CommitStopped(c, name, cfg);
  }

  /** Commits a machine to an image; without failing calls the result is CommitMachine's. */
  method VMCommit(c: Connection, name: string, cfg: CommitConfig) returns (r: Outcome<Error>)
    requires Sound(c.vols) && LiveDomains(c.domains)
    modifies c`vols, c`domains, c`networks, c`faults, c`deleteFaults
    ensures c.faults >= old(c.faults) && c.deleteFaults >= old(c.deleteFaults)
    ensures c.faults == old(c.faults) && NoRepeats(old(c.networks)) ==>
              (c.Now(), r) == CommitMachine(old(c.Now()), c.digest, name, cfg)
    ensures CommitOutcome(old(c.Now()), c.digest, name, cfg, c.Now(), c.deleteFaults != old(c.deleteFaults))
    ensures c.deleteFaults == old(c.deleteFaults) ==> Sound(c.vols)
    ensures LiveDomains(c.domains) && SameDisks(old(c.domains), c.domains)
  {
    var domain := c.DescribeDomain(name);
    if domain.Failure? {
      return Fail(domain.error);
    }
    var activity := c.DescribeDomain(name);
    if activity.Failure? {
      return Fail(activity.error);
    }
    var running := activity.value.active;
    if running && !cfg.shutdown {
      return Fail(ShutdownRequired);
    }
    if cfg.resetMachineId {
      if !running {
        return Fail(NotRunning);
      }
      var ok := c.Call(); // the command inside the machine
      if !ok {
        return Fail(LibvirtFailure);
      }
    }
    r := ShutDownAndCommit(c, name, running, cfg);
  }

  // ---------------------------------------------------------------- what a commit means

  /** The layers below a volume, base first. */
  ghost predicate LayersBelow(p: Pool, n: Name, base: seq<Blob>)
    requires n in p
  {
    if p[n].backing.None? then base == [] else LayersOf(p, p[n].backing.value, base)
  }

  /** Deleting disks leaves the chain of every other root complete and as it was. */
  lemma {:induction false} RemoveDisksKeepsOthers(p: Pool, disks: seq<Name>, keep: Option<Name>, q: seq<Name>)
    requires Sound(p) && forall n :: n in disks ==> !n.Layer?
    requires Path(p, q) && !q[|q| - 1].Layer?
    requires q[|q| - 1] in disks ==> keep == Some(q[|q| - 1])
    ensures var p' := RemoveDisks(p, disks, keep).0;
            Sound(p') && Submap(p', p) && KeepsChain(p, p', q)
    decreases |disks|
  {
    PathMembers(p, q);
    if disks != [] {
      if keep == Some(disks[0]) || disks[0] !in p {
        RemoveDisksKeepsOthers(p, disks[1..], keep, q);
      } else {
        var p1 := Collect(p, disks[0]).pool;
        CollectSound(p, disks[0]);
        CollectKeepsOthers(p, disks[0], q);
        if Collect(p, disks[0]).outcome.Pass? {
          RemoveDisksKeepsOthers(p1, disks[1..], keep, q);
        }
      }
    }
  }

  /** A volume's chain as a path: its layers, then itself. */
  lemma {:induction false} PathTo(p: Pool, n: Name, base: seq<Blob>) returns (q: seq<Name>)
    requires Sound(p) && n in p && !n.Layer? && !n.Foreign? && LayersBelow(p, n, base)
    ensures Stack(p, q) && q[|q| - 1] == n && |q| == |base| + 1
    ensures forall i :: 0 <= i < |base| ==> q[i].Layer? && q[i] in p && base[i] == Blob(q[i].hash, p[q[i]].bytes)
  {
    if p[n].backing.None? {
      q := [n];
    } else {
      assert BackingPresent(p, n);
      var b := p[n].backing.value;
      var below: seq<Name> :| ChainBlobs(p, b, below, base);
      assert DependsOn(p, n, b);
      PathExtend(p, below, n);
      q := below + [n];
    }
  }

  /** Turning the boot volume into a layer puts one layer, holding its content, on its base layers. */
  lemma {:induction false} ConvertedLayers(p: Pool, digest: Vol -> Hash, boot: Name, base: seq<Blob>)
    requires Sound(p) && Injective(digest) && ContentAddressed(p, digest)
    requires boot in p && boot.Work? && LayersBelow(p, boot, base)
    ensures var id := digest(p[boot]);
            var p' := ToLayer(p, boot, id).pool;
            && Sound(p') && ContentAddressed(p', digest) && Layer(id) in p' && boot !in p'
            && LayersOf(p', Layer(id), base + [Blob(id, p[boot].bytes)])
  {
    var id := digest(p[boot]);
    var p' := ToLayer(p, boot, id).pool;
    DeduplicationRefinesCloning(p, digest, boot);
    ConversionSound(p, boot, Layer(id), p', Some(Layer(id)), false);
    var q := PathTo(p, boot, base);
    ReplacedTop(p, p', q, base, Layer(id));
  }

  lemma {:induction false} ReplacedTop(p: Pool, p': Pool, q: seq<Name>, base: seq<Blob>, layer: Name)
    requires layer.Layer? && Stack(p, q) && |q| == |base| + 1 && !q[|q| - 1].Layer? && q[|q| - 1] in p
    requires forall i :: 0 <= i < |base| ==> q[i].Layer? && q[i] in p && base[i] == Blob(q[i].hash, p[q[i]].bytes)
    requires forall n :: n in p && n.Layer? ==> n in p' && p'[n] == p[n]
    requires layer in p' && p'[layer] == p[q[|q| - 1]]
    ensures LayersOf(p', layer, base + [Blob(layer.hash, p'[layer].bytes)])
  {
    var k := |base|;
    var q' := q[..k] + [layer];
    forall i, j | 0 <= i && j == i + 1 && j < |q'| ensures DependsOn(p', q'[j], q'[i]) {
      assert DependsOn(p, q[j], q[i]);
    }
    assert k > 0 ==> q'[0] == q[0];
    assert Stack(p', q');
    forall i | 0 <= i < |q'| ensures q'[i].Layer? && q'[i] in p' {
    }
    var blobs := base + [Blob(layer.hash, p'[layer].bytes)];
    assert blobs == Blobs(p', q');
    assert ChainBlobs(p', layer, q', blobs);
  }

  /** The machine as it can be committed: its disks are no layers, its boot volume is there. */
  ghost predicate Committable(s: State, digest: Vol -> Hash, name: string, base: seq<Blob>) {
    && Sound(s.vols) && Injective(digest) && ContentAddressed(s.vols, digest)
    && name in s.domains && (s.domains[name].persistent || s.domains[name].active)
    && (forall n :: n in s.domains[name].disks ==> n.Work?)
    && Work(name) in s.vols && LayersBelow(s.vols, Work(name), base)
  }

  /** A shut-down transient domain no longer says what belonged to it. */
  predicate Forgotten(d: Domain) {
    d.active && !d.persistent
  }

  /** The volumes from which the image is made. */
  function BootPool(s: State, name: string, cfg: CommitConfig): Pool
    requires name in s.domains
  {
    if Forgotten(s.domains[name]) then s.vols else RemoveDisks(s.vols, s.domains[name].disks, Some(Work(name))).0
  }

  lemma {:induction false} RemoveDisksPass(p: Pool, disks: seq<Name>, keep: Option<Name>)
    requires Sound(p) && forall n :: n in disks ==> n.Work?
    ensures RemoveDisks(p, disks, keep).1.Pass?
    ensures forall n :: n in disks && keep != Some(n) ==> n !in RemoveDisks(p, disks, keep).0
  {
    RemoveDisksExactly(p, disks, keep);
    forall n | n in disks && keep != Some(n) ensures Readable(p, n) {
      assert n in p ==> BackingPresent(p, n);
    }
    forall n | n in disks && keep != Some(n) ensures n !in RemoveDisks(p, disks, keep).0 {
      assert Gone(RemoveDisks(p, disks, keep).0, n, keep);
    }
  }

  /** Removing the machine before the commit always succeeds. */
  lemma {:induction false} MachineGoes(s: State, digest: Vol -> Hash, name: string, cfg: CommitConfig, base: seq<Blob>)
    requires Committable(s, digest, name, base)
    ensures var (s1, o) := WithoutMachine(s, name, cfg);
            && o.Pass? && s1.vols == BootPool(s, name, cfg) && s1.domains == s.domains - {name}
  {
    var d := s.domains[name];
    RemoveDisksPass(s.vols, d.disks, Some(Work(name)));
    if d.active {
      var s1 := ShutDown(s, name);
      if d.persistent {
        assert s1.domains - {name} == s.domains - {name};
      }
    }
  }

  /** The boot volume and its base layers are untouched by the removal. */
  lemma {:induction false} BootPoolHolds(s: State, digest: Vol -> Hash, name: string, cfg: CommitConfig,
                                         base: seq<Blob>)
    requires Committable(s, digest, name, base)
    ensures var p := BootPool(s, name, cfg);
            && Sound(p) && ContentAddressed(p, digest) && Submap(p, s.vols)
            && Work(name) in p && LayersBelow(p, Work(name), base)
  {
    var p, boot := BootPool(s, name, cfg), Work(name);
    var q := PathTo(s.vols, boot, base);
    if !Forgotten(s.domains[name]) {
      RemoveDisksKeepsOthers(s.vols, s.domains[name].disks, Some(boot), q);
      SubmapContentAddressed(s.vols, p, digest);
      assert q[|q| - 1] in p;
      if s.vols[boot].backing.Some? {
        var k := |q| - 2;
        assert DependsOn(s.vols, q[k + 1], q[k]);
        var below := q[..k + 1];
        PathLower(p, q, k);
        assert base == Blobs(p, below);
        assert ChainBlobs(p, q[k], below, base);
      }
    }
  }

  /** The machine is running only if it may be stopped, and is running if its identity is to be reset. */
  predicate MayCommit(d: Domain, cfg: CommitConfig) {
    (d.active ==> cfg.shutdown) && (cfg.resetMachineId ==> d.active)
  }

  /** Without a machine, or where it may not be committed, nothing happens; without a boot volume no image is made. */
  lemma {:induction false} CommitRefused(s: State, digest: Vol -> Hash, name: string, cfg: CommitConfig)
    ensures name !in s.domains || !MayCommit(s.domains[name], cfg) ==>
              var r := CommitMachine(s, digest, name, cfg); r.0 == s && r.1.Fail?
    ensures Work(name) !in s.vols ==>
              var r := CommitMachine(s, digest, name, cfg); r.1.Fail? && Submap(r.0.vols, s.vols)
  {
    if name in s.domains {
      RemoveDisksShrinks(s.vols, s.domains[name].disks, Some(Work(name)));
    }
  }

  /** A tag is as it was when the boot volume has become a layer. */
  lemma {:induction false} TagStays(s: State, digest: Vol -> Hash, name: string, cfg: CommitConfig, base: seq<Blob>)
    requires Committable(s, digest, name, base)
    ensures var id := digest(s.vols[Work(name)]);
            HasTop(ToLayer(BootPool(s, name, cfg), Work(name), id).pool, cfg.image) <==> HasTop(s.vols, cfg.image)
  {
    var tag := Tag(cfg.image);
    if tag in s.vols {
      assert Path(s.vols, [tag]);
      RemoveDisksKeepsOthers(s.vols, s.domains[name].disks, Some(Work(name)), [tag]);
    }
    RemoveDisksShrinks(s.vols, s.domains[name].disks, Some(Work(name)));
  }

  /**
   A commit succeeds exactly if the machine may be committed, and putting the tag on the new layer
   succeeds: the tag points at something, and not at a chain that alone stands on that layer.
   */
  lemma {:induction false} CommitSucceedsExactly(s: State, digest: Vol -> Hash, name: string, cfg: CommitConfig,
                                                 base: seq<Blob>)
    requires Committable(s, digest, name, base)
    ensures var id := digest(s.vols[Work(name)]);
            var layered := ToLayer(BootPool(s, name, cfg), Work(name), id).pool;
            CommitMachine(s, digest, name, cfg).1.Pass?
            <==> && (s.domains[name].active ==> cfg.shutdown) && (cfg.resetMachineId ==> s.domains[name].active)
                 && HasTop(s.vols, cfg.image) && !DropsNewTop(layered, cfg.image, Layer(id))
  {
    var p, id := BootPool(s, name, cfg), digest(s.vols[Work(name)]);
    BootPoolHolds(s, digest, name, cfg, base);
    MachineGoes(s, digest, name, cfg, base);
    assert p[Work(name)] == s.vols[Work(name)];
    ConvertedLayers(p, digest, Work(name), base);
    var layered := ToLayer(p, Work(name), id).pool;
    RetagSucceedsExactly(layered, cfg.image, Layer(id));
    TagStays(s, digest, name, cfg, base);
  }

  /**
   Where a commit gets past its checks the host entries of the machine's interfaces go, and no others,
   unless entries are static; a transient domain that was shut down no longer says which they are.
   */
  lemma {:induction false} CommitDropsEntries(s: State, digest: Vol -> Hash, name: string, cfg: CommitConfig)
    requires name in s.domains && MayCommit(s.domains[name], cfg)
    ensures var s', d := CommitMachine(s, digest, name, cfg).0, s.domains[name];
            && s'.networks.Keys == s.networks.Keys
            && (cfg.staticDhcp || Forgotten(d) ==> s'.networks == s.networks)
            && (!cfg.staticDhcp && !Forgotten(d) ==>
                  forall w :: w in s.networks ==> LosesEntries(s.networks[w], s'.networks[w], d.nics, w))
  {
    RemoveDropsEntries(Stopped(s, name), name, !cfg.staticDhcp, false);
  }

  /**
   A successful commit yields an image of the machine's base layers and one more, holding the boot
   volume's content, and the domain is gone.
   */
  lemma {:induction false} CommitPreservesMeaning(s: State, digest: Vol -> Hash, name: string, cfg: CommitConfig,
                                                  base: seq<Blob>)
    requires Committable(s, digest, name, base)
    requires CommitMachine(s, digest, name, cfg).1.Pass?
    ensures var s' := CommitMachine(s, digest, name, cfg).0;
            var boot := s.vols[Work(name)];
            var id := digest(boot);
            && Sound(s'.vols) && ContentAddressed(s'.vols, digest)
            && DependsOn(s'.vols, Tag(cfg.image), Layer(id))
            && LayersOf(s'.vols, Layer(id), base + [Blob(id, boot.bytes)])
            && s'.domains == s.domains - {name}
  {
    var p, id := BootPool(s, name, cfg), digest(s.vols[Work(name)]);
    BootPoolHolds(s, digest, name, cfg, base);
    MachineGoes(s, digest, name, cfg, base);
    assert p[Work(name)] == s.vols[Work(name)];
    ConvertedLayers(p, digest, Work(name), base);
    var layered := ToLayer(p, Work(name), id).pool;
    RetagImported(layered, digest, cfg.image, Layer(id), base + [Blob(id, s.vols[Work(name)].bytes)]);
  }

  /**
   After a successful commit the boot volume is gone, and so are the machine's other volumes,
   except exactly when a transient domain was shut down and there were any.
   */
  lemma {:induction false} CommitClearsMachine(s: State, digest: Vol -> Hash, name: string, cfg: CommitConfig,
                                               base: seq<Blob>)
    requires Committable(s, digest, name, base)
    requires CommitMachine(s, digest, name, cfg).1.Pass?
    ensures var s', d := CommitMachine(s, digest, name, cfg).0, s.domains[name];
            && Work(name) !in s'.vols
            && (Doomed(d, name, false) !! s'.vols.Keys
                <==> !Forgotten(d) || Doomed(d, name, false) !! s.vols.Keys)
  {
    CommittedRoots(s, digest, name, cfg, base);
    RemoveDisksPass(s.vols, s.domains[name].disks, Some(Work(name)));
  }

  /** Of the machines' volumes only the boot volume goes in making the image. */
  lemma {:induction false} CommittedRoots(s: State, digest: Vol -> Hash, name: string, cfg: CommitConfig,
                                          base: seq<Blob>)
    requires Committable(s, digest, name, base)
    requires CommitMachine(s, digest, name, cfg).1.Pass?
    ensures forall n: Name :: n.Work? ==>
              (n in CommitMachine(s, digest, name, cfg).0.vols <==> n in BootPool(s, name, cfg) && n != Work(name))
  {
    var p, id := BootPool(s, name, cfg), digest(s.vols[Work(name)]);
    BootPoolHolds(s, digest, name, cfg, base);
    MachineGoes(s, digest, name, cfg, base);
    assert p[Work(name)] == s.vols[Work(name)];
    ImagedRoots(p, digest, name, cfg.image, base);
  }

  lemma {:induction false} ImagedRoots(p: Pool, digest: Vol -> Hash, name: string, image: string, base: seq<Blob>)
    requires Sound(p) && Injective(digest) && ContentAddressed(p, digest)
    requires Work(name) in p && LayersBelow(p, Work(name), base)
    ensures var id := digest(p[Work(name)]);
            var p' := Retag(ToLayer(p, Work(name), id).pool, image, Layer(id)).pool;
            forall n: Name :: n.Work? ==> (n in p' <==> n in p && n != Work(name))
  {
    var id := digest(p[Work(name)]);
    ConvertedLayers(p, digest, Work(name), base);
    RetagRoots(ToLayer(p, Work(name), id).pool, image, Layer(id));
  }

  /** Retagging changes no root but the tag. */
  lemma {:induction false} RetagRoots(p: Pool, image: string, top: Name)
    requires Sound(p)
    ensures forall n: Name :: !n.Layer? && n != Tag(image) ==> (n in Retag(p, image, top).pool <==> n in p)
  {
    var p' := Collect(p, Tag(image)).pool;
    CollectSound(p, Tag(image));
    forall n: Name | !n.Layer? && n != Tag(image) ensures n in p' <==> n in p {
    }
  }

  /** Every other image and every other machine's volume keeps its whole chain, whether the commit succeeds or not. */
  lemma {:induction false} CommitKeepsOthers(s: State, digest: Vol -> Hash, name: string, cfg: CommitConfig,
                                             q: seq<Name>)
    requires Sound(s.vols) && name in s.domains && forall n :: n in s.domains[name].disks ==> n.Work?
    requires Path(s.vols, q) && !q[|q| - 1].Layer?
    requires q[|q| - 1] != Tag(cfg.image) && q[|q| - 1] != Work(name) && q[|q| - 1] !in s.domains[name].disks
    ensures Sound(CommitMachine(s, digest, name, cfg).0.vols)
    ensures KeepsChain(s.vols, CommitMachine(s, digest, name, cfg).0.vols, q)
  {
    PathMembers(s.vols, q);
    if Allowed(s.domains[name], cfg).Pass? {
      RemoveDisksKeepsOthers(s.vols, s.domains[name].disks, Some(Work(name)), q);
      var (s1, removed) := WithoutMachine(s, name, cfg);
      assert Sound(s1.vols) && KeepsChain(s.vols, s1.vols, q);
      BootToImageKeepsOthers(s1.vols, digest, name, cfg.image, q);
    }
  }

  lemma {:induction false} BootToImageKeepsOthers(p: Pool, digest: Vol -> Hash, name: string, image: string,
                                                  q: seq<Name>)
    requires Sound(p) && Path(p, q) && !q[|q| - 1].Layer?
    requires q[|q| - 1] != Tag(image) && q[|q| - 1] != Work(name)
    ensures Sound(BootToImage(p, digest, name, image).pool)
    ensures KeepsChain(p, BootToImage(p, digest, name, image).pool, q)
  {
    var boot := Work(name);
    PathMembers(p, q);
    if boot in p {
      var layer := Layer(digest(p[boot]));
      var layered := ToLayer(p, boot, layer.hash).pool;
      ConversionSound(p, boot, layer, layered, Some(layer), false);
      RootIsLast(p, boot, q);
      PathFrame(p, layered, q);
      RetagKeepsOthers(layered, image, layer, q);
      RetagSound(layered, image, layer);
    }
  }
}

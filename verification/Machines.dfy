/**
 Starting a machine.  The order of the steps is chosen so that a machine whose start broke off
 after it was defined can be removed like any other.
 */
module Machines {
  import opened Errors
  import opened Wrappers
  import opened Volumes
  import opened Addresses
  import opened Libvirt
  import opened Layers
  import opened Images
  import opened Dhcp
  import opened Devices

  datatype VMConfig = VMConfig(
    name: string,
    memoryKiB: nat,
    vcpus: nat,
    id: UInt,
    staticDhcp: bool,
    top: Option<Name>,
    ciData: Bytes,
    disks: seq<DiskConfig>,
    extraNics: seq<Nic>,
    vncPort: Option<int>)

  predicate CheckVMConfig(cfg: VMConfig) {
    && cfg.memoryKiB != 0 && cfg.vcpus != 0 && cfg.id != 1
    && CheckDisks(cfg.disks)
    && (cfg.vncPort.Some? ==> 5900 <= cfg.vncPort.value <= 65535)
  }

  /** What is accepted: memory, processors, any identifier but 1, disks of known kinds, a VNC port for a display. */
  lemma {:induction false} AcceptedExactly(cfg: VMConfig)
    ensures CheckVMConfig(cfg) <==>
              && cfg.memoryKiB > 0 && cfg.vcpus > 0 && (cfg.id == 0 || cfg.id >= 2)
              && (forall i :: 0 <= i < |cfg.disks| ==>
                    && (cfg.disks[i].bus == "ide" || cfg.disks[i].bus == "scsi" || cfg.disks[i].bus == "virtio")
                    && (cfg.disks[i].format == "qcow2" || cfg.disks[i].format == "raw"))
              && (cfg.vncPort.Some? ==> 5900 <= cfg.vncPort.value < 65536)
  {
    forall d ensures d in cfg.disks <==> exists i :: 0 <= i < |cfg.disks| && cfg.disks[i] == d {
    }
  }

  /** The volumes of a machine: boot volume, configuration data, extra disks. */
  function VolumeNames(cfg: VMConfig): (r: seq<Name>)
    ensures |r| == 2 + |cfg.disks| && forall i :: 0 <= i < |r| ==> r[i].Work?
  {
    var disks := VmDisks(cfg.name, cfg.disks);
    AcceptedNeverFails(cfg.name, cfg.disks);
    seq(|disks|, i requires 0 <= i < |disks| => disks[i].volume)
  }

  /** How the i-th of them is created. */
  function NewVolume(top: Option<Name>, data: Bytes, i: nat): Vol {
    if i == 0 then Vol(top, []) else if i == 1 then Vol(None, data) else Vol(None, [])
  }

  /** The first m of them. */
  function Created(names: seq<Name>, top: Option<Name>, data: Bytes, m: nat): Pool
    requires m <= |names|
  {
    if m == 0 then map[] else Created(names, top, data, m - 1)[names[m - 1] := NewVolume(top, data, m - 1)]
  }

  /** The interfaces: the access network under the machine's own MAC, then the extra ones. */
  function Nics(cfg: VMConfig, w: string, id: UInt): seq<Nic>
    requires QemuFits(id)
  {
    [Nic(QemuMAC(id), w)] + cfg.extraNics
  }

  ghost predicate MacUsed(domains: map<string, Domain>, mac: Bytes) {
    exists d :: d in domains && HasNic(domains[d], mac)
  }

  predicate HasNic(d: Domain, mac: Bytes) {
    exists i :: 0 <= i < |d.nics| && d.nics[i].mac == mac
  }

  /** All the checks made before anything is changed; id is the identifier chosen. */
  ghost predicate RunChecks(s: State, w: string, cfg: VMConfig, id: UInt) {
    && CheckVMConfig(cfg)
    && cfg.name !in s.domains
    && (forall i :: 0 <= i < |VolumeNames(cfg)| ==> VolumeNames(cfg)[i] !in s.vols)
    && QemuFits(cfg.id) && GetVmId(s.networks, w, cfg.id, cfg.staticDhcp) == Success(id)
    && QemuFits(id) && !MacUsed(s.domains, QemuMAC(id))
  }

  /** A start that got past its checks has a MAC that no interface of any domain has, not even a later one. */
  lemma {:induction false} MacIsUnused(s: State, w: string, cfg: VMConfig, id: UInt)
    requires RunChecks(s, w, cfg, id)
    ensures !MacUsed(s.domains, QemuMAC(id))
    ensures forall d, nic :: d in s.domains && nic in s.domains[d].nics ==> nic.mac != QemuMAC(id)
  {
    forall d, nic | d in s.domains && nic in s.domains[d].nics ensures nic.mac != QemuMAC(id) {
      assert !HasNic(s.domains[d], QemuMAC(id));
      var i :| 0 <= i < |s.domains[d].nics| && s.domains[d].nics[i] == nic;
    }
  }

  /** How far a start got: m volumes, the host entry, the domain running. */
  datatype Progress = NotDefined | Defined(id: UInt, data: Bytes, m: nat, hosted: bool, active: bool)

  ghost predicate InOrder(s: State, w: string, cfg: VMConfig, p: Progress)
    requires p.Defined?
  {
    var all := |VolumeNames(cfg)|;
    && p.m <= all && Distinct(VolumeNames(cfg)[..p.m])
    && (p.m > 0 && cfg.top.Some? ==> cfg.top.value in s.vols)
    && (p.hosted ==> && p.m == all && !cfg.staticDhcp && QemuFits(p.id)
                     && AddHost(s.networks, w, QemuMAC(p.id), p.id).Success?)
    && (p.active ==> p.m == all && (p.hosted || cfg.staticDhcp))
  }

  /** The state that far into the start. */
  ghost function RunState(s: State, w: string, cfg: VMConfig, p: Progress): State
    requires p.Defined? && QemuFits(p.id) && InOrder(s, w, cfg, p)
  {
    State(s.vols + Created(VolumeNames(cfg), cfg.top, p.data, p.m),
          s.domains[cfg.name := Domain(true, p.active, Nics(cfg, w, p.id), VolumeNames(cfg), [])],
          if p.hosted then AddHost(s.networks, w, QemuMAC(p.id), p.id).value else s.networks)
  }

  // ---------------------------------------------------------------- checks

  method AnyImageExists(c: Connection, cfg: VMConfig) returns (r: Result<bool, Error>)
    modifies c`faults
    ensures c.faults >= old(c.faults)
    ensures r.Success? ==> c.faults == old(c.faults)
                           && r.value == exists i :: 0 <= i < |VolumeNames(cfg)| && VolumeNames(cfg)[i] in c.vols
    ensures r.Failure? ==> c.faults > old(c.faults)
  {
    var names := VolumeNames(cfg);
    for i := 0 to |names|
      invariant c.faults == old(c.faults) && forall j :: 0 <= j < i ==> names[j] !in c.vols
    {
      var found :- FindRawLayer(c, names[i]);
      if found {
        return Success(true);
      }
    }
    return Success(false);
  }

  method GetDomainForMAC(c: Connection, mac: Bytes) returns (r: Result<Option<string>, Error>)
    modifies c`faults
    ensures c.faults >= old(c.faults)
    ensures r.Success? ==> c.faults == old(c.faults) && r.value.Some? == MacUsed(c.domains, mac)
    ensures r.Failure? ==> c.faults > old(c.faults)
  {
    var list :- c.ListDomains();
    for i := 0 to |list|
      invariant c.faults == old(c.faults)
      invariant forall j :: 0 <= j < i ==> !HasNic(c.domains[list[j]], mac)
    {
      assert list[i] in c.domains;
      var desc := c.DescribeDomain(list[i]);
      if desc.Failure? {
        if desc.error == NoDomain {
          continue;
        }
        return Failure(desc.error);
      }
      var nics := desc.value.nics;
      for k := 0 to |nics|
        invariant c.faults == old(c.faults) && forall j :: 0 <= j < k ==> nics[j].mac != mac
      {
        if nics[k].mac == mac {
          assert HasNic(c.domains[list[i]], mac);
          return Success(Some(list[i]));
        }
      }
    }
    return Success(None);
  }

  method CheckRun(c: Connection, cfg: VMConfig) returns (r: Result<UInt, Error>)
    modifies c`faults
    ensures c.faults >= old(c.faults)
    ensures r.Success? ==> c.faults == old(c.faults) && RunChecks(c.Now(), c.accessNetwork, cfg, r.value)
    ensures r.Failure? && c.faults == old(c.faults) ==> forall id: UInt :: !RunChecks(c.Now(), c.accessNetwork, cfg, id)
  {
    if !CheckVMConfig(cfg) {
      return Failure(InvalidConfig);
    }
    var ok := c.Call(); // asking for the domain capabilities of the architecture
    if !ok {
      return Failure(LibvirtFailure);
    }
    var domain := c.DescribeDomain(cfg.name);
    if domain != Failure(NoDomain) {
      return Failure(if domain.Failure? then domain.error else AlreadyDefined);
    }
    var exists_ :- AnyImageExists(c, cfg);
    if exists_ {
      return Failure(AlreadyExists);
    }
    var id :- GetVMID(c, cfg.id, cfg.staticDhcp);
    if id != cfg.id {
      LastIdFits(c.networks[c.accessNetwork].ipNet.value.hostBits);
    }
    var existing :- GetDomainForMAC(c, QemuMAC(id));
    if existing.Some? {
      return Failure(MacInUse);
    }
    return Success(id);
  }

  // ---------------------------------------------------------------- creating the volumes

  lemma {:induction false} CreatedKeys(names: seq<Name>, top: Option<Name>, data: Bytes, m: nat)
    requires m <= |names|
    ensures forall n :: n in Created(names, top, data, m) <==> n in names[..m]
    ensures forall n :: n in Created(names, top, data, m) ==>
              Created(names, top, data, m)[n].backing == None
              || (n == names[0] && Created(names, top, data, m)[n].backing == top)
  {
    if m > 0 {
      CreatedKeys(names, top, data, m - 1);
      assert names[..m] == names[..m - 1] + [names[m - 1]];
    }
  }

  lemma {:induction false} CreatedBoot(names: seq<Name>, top: Option<Name>, data: Bytes, m: nat)
    requires 0 < m <= |names| && Distinct(names[..m])
    ensures names[0] in Created(names, top, data, m) && Created(names, top, data, m)[names[0]] == Vol(top, [])
  {
    if m > 1 {
      assert names[..m][..m - 1] == names[..m - 1];
      CreatedBoot(names, top, data, m - 1);
      assert names[..m][0] != names[..m][m - 1];
    }
  }

  /** The configuration data only shows once its volume exists. */
  lemma {:induction false} CreatedData(names: seq<Name>, top: Option<Name>, data: Bytes, data': Bytes)
    requires 1 <= |names|
    ensures Created(names, top, data, 1) == Created(names, top, data', 1)
  {
    assert Created(names, top, data, 0) == Created(names, top, data', 0);
  }

  /** The i-th volume of a machine, once there. */
  lemma {:induction false} CreatedValue(names: seq<Name>, top: Option<Name>, data: Bytes, m: nat, i: nat)
    requires i < m <= |names| && Distinct(names[..m])
    ensures names[i] in Created(names, top, data, m)
    ensures Created(names, top, data, m)[names[i]] == Vol(if i == 0 then top else None, if i == 1 then data else [])
    decreases m
  {
    if i < m - 1 {
      assert names[..m][..m - 1] == names[..m - 1];
      CreatedValue(names, top, data, m - 1, i);
      assert names[..m][i] != names[..m][m - 1];
    }
  }

  /**
   The volumes a start has made, as far as it got: only the boot volume has the image below it, and only
   the second one has content; nothing else has changed.
   */
  lemma {:induction false} RunMakesVolumes(s: State, w: string, cfg: VMConfig, p: Progress)
    requires p.Defined? && RunChecks(s, w, cfg, p.id) && InOrder(s, w, cfg, p)
    ensures var vols, names := RunState(s, w, cfg, p).vols, VolumeNames(cfg);
            && (forall n :: n in vols <==> n in s.vols || n in names[..p.m])
            && (forall n :: n in s.vols ==> n !in names[..p.m] && vols[n] == s.vols[n])
            && (forall i :: 0 <= i < p.m ==> IsMachineVolume(vols, names[i], cfg.top, p.data, i))
  {
    var names := VolumeNames(cfg);
    CreatedKeys(names, cfg.top, p.data, p.m);
    forall i | 0 <= i < p.m ensures IsMachineVolume(RunState(s, w, cfg, p).vols, names[i], cfg.top, p.data, i) {
      CreatedValue(names, cfg.top, p.data, p.m, i);
    }
  }

  predicate IsMachineVolume(p: Pool, n: Name, top: Option<Name>, data: Bytes, i: nat) {
    n in p && p[n] == Vol(if i == 0 then top else None, if i == 1 then data else [])
  }

  /**
   The domain it has defined: its disks are the boot volume, the configuration data and the other disks in
   the order of the configuration, and its first interface is on the access network, under the MAC that is
   the base plus the identifier.
   */
  lemma {:induction false} RunMakesDomain(s: State, w: string, cfg: VMConfig, p: Progress)
    requires p.Defined? && RunChecks(s, w, cfg, p.id) && InOrder(s, w, cfg, p)
    ensures var domains := RunState(s, w, cfg, p).domains;
            && cfg.name !in s.domains && cfg.name in domains && domains - {cfg.name} == s.domains
            && var d := domains[cfg.name];
               && d.persistent && d.active == p.active && d.snapshots == []
               && |d.disks| == |cfg.disks| + 2
               && d.disks[0] == Work(cfg.name) && d.disks[1] == Work(cfg.name + "-cidata")
               && (forall i :: 0 <= i < |cfg.disks| ==> d.disks[i + 2] == Work(cfg.name + "-" + cfg.disks[i].name))
               && |d.nics| == |cfg.extraNics| + 1 && d.nics[1..] == cfg.extraNics
               && d.nics[0].network == w && |d.nics[0].mac| == 6
               && FromBytes(d.nics[0].mac) == Abs(0x5254_0000_0000 + Signed(p.id))
  {
    QemuBaseValue();
    AddMacValue(QEMU_BASE, p.id);
    assert s.domains - {cfg.name} == s.domains;
    assert Nics(cfg, w, p.id)[1..] == cfg.extraNics;
  }

  /** One more volume. */
  lemma {:induction false} CreateNext(p0: Pool, p: Pool, names: seq<Name>, top: Option<Name>, data: Bytes, m: nat)
    requires m < |names| && p == p0 + Created(names, top, data, m)
    requires names[m] !in p && names[m].Work?
    requires top.Some? ==> top.value.Layer?
    ensures var p' := p[names[m] := NewVolume(top, data, m)];
            && p' == p0 + Created(names, top, data, m + 1)
            && (Distinct(names[..m]) ==> Distinct(names[..m + 1]))
            && (Sound(p) && (m == 0 && top.Some? ==> top.value in p) ==> Sound(p'))
  {
    CreatedKeys(names, top, data, m);
    assert names[..m + 1] == names[..m] + [names[m]];
    if Sound(p) && (m == 0 && top.Some? ==> top.value in p) {
      CreateSound(p, names[m], NewVolume(top, data, m));
    }
  }

  lemma {:induction false} AlreadyCreated(p0: Pool, p: Pool, names: seq<Name>, top: Option<Name>, data: Bytes, m: nat)
    requires m < |names| && names[m] !in p0 && names[m] in p && p == p0 + Created(names, top, data, m)
    ensures !Distinct(names)
  {
    CreatedKeys(names, top, data, m);
    var j :| 0 <= j < m && names[..m][j] == names[m];
    assert names[j] == names[m];
  }

  ghost predicate Feasible(s: State, w: string, cfg: VMConfig, id: UInt) {
    && Distinct(VolumeNames(cfg))
    && (cfg.top.Some? ==> cfg.top.value in s.vols)
    && (!cfg.staticDhcp ==> QemuFits(id) && AddHost(s.networks, w, QemuMAC(id), id).Success?)
  }

  /** The boot volume and the configuration data. */
  method CreateBootAndData(c: Connection, cfg: VMConfig) returns (r: Outcome<Error>, ghost data: Bytes, ghost m: nat)
    requires cfg.top.Some? ==> cfg.top.value.Layer?
    requires VolumeNames(cfg)[0] !in c.vols && VolumeNames(cfg)[1] !in c.vols
    modifies c`vols, c`faults
    ensures c.faults >= old(c.faults)
    ensures m <= 2 && c.vols == old(c.vols) + Created(VolumeNames(cfg), cfg.top, data, m)
    ensures Distinct(VolumeNames(cfg)[..m])
    ensures m > 0 && cfg.top.Some? ==> cfg.top.value in old(c.vols)
    ensures r.Pass? ==> c.faults == old(c.faults) && m == 2 && data == cfg.ciData
    ensures r.Fail? && c.faults == old(c.faults) ==>
              !Distinct(VolumeNames(cfg)) || (cfg.top.Some? && cfg.top.value !in old(c.vols))
    ensures Sound(old(c.vols)) ==> Sound(c.vols)
  {
    var names := VolumeNames(cfg);
    ghost var p := c.vols;
    data, m := cfg.ciData, 0;
    assert p + Created(names, cfg.top, data, 0) == p;
    assert names[0] == Work(cfg.name) && names[1] == Work(CiDataVolumeName(cfg.name));
    r := ImageSpawn(c, cfg.name, cfg.top);
    if r.Fail? {
      return;
    }
    CreateNext(p, p, names, cfg.top, data, 0);
    m := 1;

    ghost var p1 := c.vols;
    r := NewDynamicLayer(c, CiDataVolumeName(cfg.name), None);
    if r.Fail? {
      assert Distinct(names) ==> names[0] != names[1];
      return;
    }
    r := c.UploadVolume(names[1], cfg.ciData);
    data := c.vols[names[1]].bytes;
    CreatedData(names, cfg.top, cfg.ciData, data);
    CreateNext(p, p1, names, cfg.top, data, 1);
    m := 2;
    assert c.vols == p1[names[1] := Vol(None, data)];
  }

  method CreateVolumes(c: Connection, cfg: VMConfig) returns (r: Outcome<Error>, ghost data: Bytes, ghost m: nat)
    requires cfg.top.Some? ==> cfg.top.value.Layer?
    requires forall i :: 0 <= i < |VolumeNames(cfg)| ==> VolumeNames(cfg)[i] !in c.vols
    modifies c`vols, c`faults
    ensures c.faults >= old(c.faults)
    ensures m <= |VolumeNames(cfg)| && c.vols == old(c.vols) + Created(VolumeNames(cfg), cfg.top, data, m)
    ensures Distinct(VolumeNames(cfg)[..m])
    ensures m > 0 && cfg.top.Some? ==> cfg.top.value in old(c.vols)
    ensures r.Pass? ==> c.faults == old(c.faults) && m == |VolumeNames(cfg)| && data == cfg.ciData
    ensures r.Fail? && c.faults == old(c.faults) ==>
              !Distinct(VolumeNames(cfg)) || (cfg.top.Some? && cfg.top.value !in old(c.vols))
    ensures Sound(old(c.vols)) ==> Sound(c.vols)
  {
    ghost var p, names := c.vols, VolumeNames(cfg);
    r, data, m := CreateBootAndData(c, cfg);
    if r.Pass? {
      forall i | 0 <= i < |cfg.disks| ensures names[i + 2] == Work(DiskVolumeName(cfg.name, cfg.disks[i].name)) {
      }
      r, m := CreateDisks(c, cfg.name, cfg.disks, p, names, cfg.top, data);
    }
  }

  /** The first m volumes are there. */
  ghost predicate BuiltTo(p0: Pool, p: Pool, names: seq<Name>, top: Option<Name>, data: Bytes, m: nat) {
    m <= |names| && p == p0 + Created(names, top, data, m) && Distinct(names[..m])
  }

  /** One extra disk more, or a name that occurs twice. */
  lemma {:induction false} NextDisk(p0: Pool, p: Pool, names: seq<Name>, top: Option<Name>, data: Bytes, m: nat)
    requires BuiltTo(p0, p, names, top, data, m) && 2 <= m < |names| && names[m].Work? && names[m] !in p0
    requires top.Some? ==> top.value.Layer?
    ensures names[m] in p ==> !Distinct(names)
    ensures names[m] !in p ==> BuiltTo(p0, p[names[m] := Vol(None, [])], names, top, data, m + 1)
    ensures names[m] !in p && Sound(p) ==> Sound(p[names[m] := Vol(None, [])])
  {
    if names[m] in p {
      AlreadyCreated(p0, p, names, top, data, m);
    } else {
      CreateNext(p0, p, names, top, data, m);
    }
  }

  /** The extra disks. */
  method CreateDisks(c: Connection, vmName: string, disks: seq<DiskConfig>,
                     ghost p: Pool, ghost names: seq<Name>, ghost top: Option<Name>, ghost data: Bytes)
    returns (r: Outcome<Error>, ghost m: nat)
    requires top.Some? ==> top.value.Layer?
    requires |names| == |disks| + 2 && forall i :: 0 <= i < |names| ==> names[i] !in p
    requires forall i :: 0 <= i < |disks| ==> names[i + 2] == Work(DiskVolumeName(vmName, disks[i].name))
    requires BuiltTo(p, c.vols, names, top, data, 2)
    modifies c`vols, c`faults
    ensures c.faults >= old(c.faults)
    ensures 2 <= m && BuiltTo(p, c.vols, names, top, data, m)
    ensures r.Pass? ==> c.faults == old(c.faults) && m == |names|
    ensures r.Fail? && c.faults == old(c.faults) ==> !Distinct(names)
    ensures Sound(old(c.vols)) ==> Sound(c.vols)
  {
    m := 2;
    for i := 0 to |disks|
      invariant c.faults == old(c.faults) && m == i + 2
      invariant BuiltTo(p, c.vols, names, top, data, m)
      invariant Sound(old(c.vols)) ==> Sound(c.vols)
    {
      assert names[i + 2] == Work(DiskVolumeName(vmName, disks[i].name));
      NextDisk(p, c.vols, names, top, data, m);
      r := NewDynamicLayer(c, DiskVolumeName(vmName, disks[i].name), None);
      if r.Fail? {
        return;
      }
      m := m + 1;
    }
    return Pass, m;
  }

  // ---------------------------------------------------------------- starting

  /** The domain and its volumes; a machine that is only defined is neither entered nor running. */
  method DefineAndCreate(c: Connection, cfg: VMConfig, id: UInt) returns (r: Outcome<Error>, ghost p: Progress)
    requires cfg.top.Some? ==> cfg.top.value.Layer?
    requires QemuFits(id) && cfg.name !in c.domains
    requires forall i :: 0 <= i < |VolumeNames(cfg)| ==> VolumeNames(cfg)[i] !in c.vols
    modifies c`vols, c`domains, c`faults
    ensures c.faults >= old(c.faults)
    ensures p.NotDefined? ==> r.Fail? && c.Now() == old(c.Now()) && c.faults > old(c.faults)
    ensures p.Defined? ==>
              && p == Defined(id, p.data, p.m, false, false)
              && InOrder(old(c.Now()), c.accessNetwork, cfg, p)
              && c.Now() == RunState(old(c.Now()), c.accessNetwork, cfg, p)
    ensures r.Pass? ==> c.faults == old(c.faults) && p.Defined? && p.m == |VolumeNames(cfg)| && p.data == cfg.ciData
    ensures c.faults == old(c.faults) && Feasible(old(c.Now()), c.accessNetwork, cfg, id) ==> r.Pass?
    ensures Sound(old(c.vols)) ==> Sound(c.vols)
  {
    p := NotDefined;
    r := c.DefineDomain(cfg.name, Nics(cfg, c.accessNetwork, id), VolumeNames(cfg));
    if r.Fail? {
      return;
    }
    ghost var data: Bytes;
    ghost var m: nat;
    r, data, m := CreateVolumes(c, cfg);
    p := Defined(id, data, m, false, false);
  }

  /** The steps after the checks; ends at progress p. */
  method StartChecked(c: Connection, cfg: VMConfig, id: UInt) returns (r: Outcome<Error>, ghost p: Progress)
    requires cfg.top.Some? ==> cfg.top.value.Layer?
    requires QemuFits(id) && cfg.name !in c.domains
    requires forall i :: 0 <= i < |VolumeNames(cfg)| ==> VolumeNames(cfg)[i] !in c.vols
    modifies c`vols, c`domains, c`networks, c`faults
    ensures c.faults >= old(c.faults)
    ensures p.NotDefined? ==> r.Fail? && c.Now() == old(c.Now())
    ensures p.Defined? ==>
              && p.id == id
              && InOrder(old(c.Now()), c.accessNetwork, cfg, p)
              && c.Now() == RunState(old(c.Now()), c.accessNetwork, cfg, p)
              && (r.Pass? <==> p.active)
    ensures r.Pass? ==> c.faults == old(c.faults) && p.Defined? && p.data == cfg.ciData
    ensures c.faults == old(c.faults) && Feasible(old(c.Now()), c.accessNetwork, cfg, id) ==> r.Pass?
    ensures Sound(old(c.vols)) ==> Sound(c.vols)
  {
    r, p := DefineAndCreate(c, cfg, id);
    if r.Fail? {
      return;
    }
    ghost var hosted: bool;
    r, hosted := HostAndStart(c, cfg.name, id, cfg.staticDhcp);
    p := Defined(id, p.data, p.m, hosted, r.Pass?);
  }

  /** The host entry, so that the right address is given from the start, then the start itself. */
  method HostAndStart(c: Connection, name: string, id: UInt, staticDhcp: bool)
    returns (r: Outcome<Error>, ghost hosted: bool)
    requires QemuFits(id) && name in c.domains && c.domains[name].persistent
    modifies c`domains, c`networks, c`faults
    ensures c.faults >= old(c.faults)
    ensures r.Pass? ==> c.faults == old(c.faults) && (hosted || staticDhcp)
    ensures var added := AddHost(old(c.networks), c.accessNetwork, QemuMAC(id), id);
            && (hosted ==> !staticDhcp && added.Success?)
            && c.networks == (if hosted then added.value else old(c.networks))
            && (c.faults == old(c.faults) && (staticDhcp || added.Success?) ==> r.Pass?)
    ensures c.domains ==
              if r.Pass? then old(c.domains)[name := old(c.domains)[name].(active := true)] else old(c.domains)
  {
    hosted := false;
    if !staticDhcp {
      r := AddDHCPHost(c, QemuMAC(id), id);
      if r.Fail? {
        return;
      }
      hosted := true;
    }
    r := c.StartDomain(name);
  }

  /**
   Starts a machine.  Whatever fails, the state is that of some point of the start, in the order
   domain, volumes, host entry, activity; nothing is changed before all checks have passed.
   */
  method VMRun(c: Connection, cfg: VMConfig) returns (r: Outcome<Error>, ghost p: Progress)
    requires cfg.top.Some? ==> cfg.top.value.Layer?
    requires |cfg.disks| < 0x1_0000_0000
    modifies c`vols, c`domains, c`networks, c`faults
    ensures c.faults >= old(c.faults)
    ensures p.NotDefined? ==> r.Fail? && c.Now() == old(c.Now())
    ensures p.Defined? ==>
              && RunChecks(old(c.Now()), c.accessNetwork, cfg, p.id)
              && InOrder(old(c.Now()), c.accessNetwork, cfg, p)
              && c.Now() == RunState(old(c.Now()), c.accessNetwork, cfg, p)
              && (r.Pass? <==> p.active)
    ensures r.Pass? ==> c.faults == old(c.faults) && p.Defined? && p.data == cfg.ciData
    ensures c.faults == old(c.faults) ==>
              forall id: UInt :: (&& RunChecks(old(c.Now()), c.accessNetwork, cfg, id)
                                  && Feasible(old(c.Now()), c.accessNetwork, cfg, id)) ==> r.Pass?
    ensures Sound(old(c.vols)) ==> Sound(c.vols)
  {
    var checked := CheckRun(c, cfg);
    if checked.Failure? {
      return Fail(checked.error), NotDefined;
    }
    AcceptedNeverFails(cfg.name, cfg.disks);
    var devices := VmDisksToLibvirtDisks(VmDisks(cfg.name, cfg.disks));
    if devices.Failure? {
      return Fail(devices.error), NotDefined;
    }
    r, p := StartChecked(c, cfg, checked.value);
  }
}

/** The disks of a machine: checking a configuration and naming the target devices per bus. */
module Devices {
  import opened Errors
  import opened Wrappers
  import opened Volumes
  import opened DriveLetters

  datatype Device = Disk | Cdrom

  datatype VMDisk = VMDisk(device: Device, volume: Name, bus: string, format: string)

  /** The part of a disk's domain description that depends on the list it is in. */
  datatype DomainDisk = DomainDisk(
    device: Device,
    volume: Name,
    bus: string,
    format: string,
    discard: bool,
    dev: string)

  datatype DiskConfig = DiskConfig(name: string, bus: string, format: string)

  const BUS_TO_DEV_PREFIX: map<string, string> := map["ide" := "hd", "scsi" := "sd", "virtio" := "vd"]

  const APPROVED_FORMATS: set<string> := {"qcow2", "raw"}

  predicate CheckDisks(disks: seq<DiskConfig>) {
    forall d :: d in disks ==> d.bus in BUS_TO_DEV_PREFIX && d.format in APPROVED_FORMATS
  }

  function CiDataVolumeName(vmName: string): string {
    vmName + "-cidata"
  }

  function DiskVolumeName(vmName: string, diskName: string): string {
    vmName + "-" + diskName
  }

  /** The boot disk, the configuration CD, and the extra disks of the configuration. */
  function VmDisks(vmName: string, disks: seq<DiskConfig>): seq<VMDisk> {
    [VMDisk(Disk, Work(vmName), "virtio", "qcow2"), VMDisk(Cdrom, Work(CiDataVolumeName(vmName)), "scsi", "raw")]
    + seq(|disks|, i requires 0 <= i < |disks| =>
        VMDisk(Disk, Work(DiskVolumeName(vmName, disks[i].name)), disks[i].bus, disks[i].format))
  }

  /** How many of the first k disks are on a bus. */
  function OnBus(disks: seq<VMDisk>, bus: string, k: nat): nat
    requires k <= |disks|
  {
    if k == 0 then 0 else OnBus(disks, bus, k - 1) + (if disks[k - 1].bus == bus then 1 else 0)
  }

  /** The i-th disk is described as it is, and named by its position on its own bus. */
  ghost predicate Described(disks: seq<VMDisk>, result: seq<DomainDisk>, i: nat)
    requires i < |disks| && i < |result|
  {
    var d, r := disks[i], result[i];
    && d.bus in BUS_TO_DEV_PREFIX
    && r == DomainDisk(d.device, d.volume, d.bus, d.format, d.device == Disk,
                       BUS_TO_DEV_PREFIX[d.bus] + Letters(OnBus(disks, d.bus, i) + 1))
  }

  predicate OnKnownBuses(disks: seq<VMDisk>) {
    forall i :: 0 <= i < |disks| ==> disks[i].bus in BUS_TO_DEV_PREFIX
  }

  /** The disks listed so far are described. */
  ghost predicate AllDescribed(disks: seq<VMDisk>, result: seq<DomainDisk>) {
    |result| <= |disks| && forall j :: 0 <= j < |result| ==> Described(disks, result, j)
  }

  /**
   Keeps a drive letter per bus.  Fails exactly when a bus is unknown; otherwise the k-th disk of a
   bus gets the k-th letter.
   */
  method VmDisksToLibvirtDisks(disks: seq<VMDisk>) returns (r: Result<seq<DomainDisk>, Error>)
    requires |disks| + 2 < 0x1_0000_0000_0000_0000
    ensures r.Success? <==> OnKnownBuses(disks)
    ensures r.Success? ==> |r.value| == |disks| && AllDescribed(disks, r.value)
    ensures r.Failure? ==> r.error == InvalidConfig
  {
    var devCounts: map<string, DriveLetter> := map[];
    var result: seq<DomainDisk> := [];
    NoCounters(disks);
    for i := 0 to |disks|
      invariant |result| == i && AllDescribed(disks, result)
      invariant fresh(devCounts.Values) && Counters(devCounts, disks, i)
    {
      if disks[i].bus !in BUS_TO_DEV_PREFIX {
        return Failure(InvalidConfig);
      }
      devCounts, result := NextDisk(devCounts, disks, result);
    }
    AllOnKnownBus(disks, result);
    return Success(result);
  }

  /** One more disk is described. */
  method AppendDisk(disks: seq<VMDisk>, result: seq<DomainDisk>, letter: string) returns (result': seq<DomainDisk>)
    requires |result| < |disks| && AllDescribed(disks, result) && disks[|result|].bus in BUS_TO_DEV_PREFIX
    requires letter == Letters(OnBus(disks, disks[|result|].bus, |result|) + 1)
    ensures |result'| == |result| + 1 && AllDescribed(disks, result')
  {
    var d := disks[|result|];
    result' := result + [DomainDisk(d.device, d.volume, d.bus, d.format, d.device == Disk,
                                    BUS_TO_DEV_PREFIX[d.bus] + letter)];
    forall j | 0 <= j < |result'| ensures Described(disks, result', j) {
      assert j < |result| ==> Described(disks, result, j) && result'[j] == result[j];
    }
  }

  lemma {:induction false} AllOnKnownBus(disks: seq<VMDisk>, result: seq<DomainDisk>)
    requires |result| == |disks| && AllDescribed(disks, result)
    ensures OnKnownBuses(disks)
  {
    forall i | 0 <= i < |disks| ensures disks[i].bus in BUS_TO_DEV_PREFIX {
      assert Described(disks, result, i);
    }
  }

  /** After k disks every bus seen has its own counter, one past the disks it has. */
  ghost predicate Counters(devCounts: map<string, DriveLetter>, disks: seq<VMDisk>, k: nat)
    requires k <= |disks|
    reads devCounts.Values
  {
    && (forall bus :: bus in devCounts ==> devCounts[bus].num == OnBus(disks, bus, k) + 1 <= k + 1)
    && (forall bus :: bus !in devCounts ==> OnBus(disks, bus, k) == 0)
    && (forall a, b :: a in devCounts && b in devCounts && devCounts[a] == devCounts[b] ==> a == b)
  }

  lemma {:induction false} NoCounters(disks: seq<VMDisk>)
    ensures Counters(map[], disks, 0)
  {
  }

  /** The letter for the i-th disk, from the counter of its bus, which moves on. */
  method NextLetter(devCounts: map<string, DriveLetter>, disks: seq<VMDisk>, bus: string, ghost i: nat)
    returns (devCounts': map<string, DriveLetter>, letter: string)
    requires i < |disks| && i + 2 < 0x1_0000_0000_0000_0000 && disks[i].bus == bus
    requires Counters(devCounts, disks, i)
    modifies devCounts.Values
    ensures Counters(devCounts', disks, i + 1)
    ensures letter == Letters(OnBus(disks, bus, i) + 1)
    ensures fresh(devCounts'.Values - devCounts.Values)
  {
    var count: DriveLetter;
    if bus in devCounts {
      count := devCounts[bus];
    } else {
      count := new DriveLetter();
    }
    letter := count.String();
    count.Inc();
    devCounts' := devCounts[bus := count];
  }

  /** The next disk: its letter is taken and it is described. */
  method NextDisk(devCounts: map<string, DriveLetter>, disks: seq<VMDisk>, result: seq<DomainDisk>)
    returns (devCounts': map<string, DriveLetter>, result': seq<DomainDisk>)
    requires |result| < |disks| && |result| + 2 < 0x1_0000_0000_0000_0000
    requires AllDescribed(disks, result) && disks[|result|].bus in BUS_TO_DEV_PREFIX
    requires Counters(devCounts, disks, |result|)
    modifies devCounts.Values
    ensures |result'| == |result| + 1 && AllDescribed(disks, result')
    ensures Counters(devCounts', disks, |result'|) && fresh(devCounts'.Values - devCounts.Values)
  {
    var devLetter;
    ghost var i := |result|;
    devCounts', devLetter := NextLetter(devCounts, disks, disks[|result|].bus, i);
    result' := AppendDisk(disks, result, devLetter);
  }

  lemma {:induction false} OnBusGrows(disks: seq<VMDisk>, bus: string, i: nat, j: nat)
    requires i < j <= |disks| && disks[i].bus == bus
    ensures OnBus(disks, bus, i) < OnBus(disks, bus, j)
    decreases j
  {
    if j > i + 1 {
      OnBusGrows(disks, bus, i, j - 1);
    }
  }

  /** No two disks of a machine get the same target device. */
  lemma {:induction false} DevicesDistinct(disks: seq<VMDisk>, result: seq<DomainDisk>, i: nat, j: nat)
    requires |result| == |disks| && i < j < |disks|
    requires Described(disks, result, i) && Described(disks, result, j)
    ensures result[i].dev != result[j].dev
  {
    var a, b := disks[i].bus, disks[j].bus;
    var m, n := OnBus(disks, a, i) + 1, OnBus(disks, b, j) + 1;
    assert result[i].dev[..2] == BUS_TO_DEV_PREFIX[a] && result[j].dev[..2] == BUS_TO_DEV_PREFIX[b];
    assert result[i].dev[2..] == Letters(m) && result[j].dev[2..] == Letters(n);
    LettersInjective(m, n);
    if a == b {
      OnBusGrows(disks, a, i, j);
    } else {
      assert BUS_TO_DEV_PREFIX[a][0] != BUS_TO_DEV_PREFIX[b][0];
    }
  }

  /** The first letters of a target device tell its bus, whatever the others are. */
  lemma {:induction false} PrefixTellsBus(disks: seq<VMDisk>, result: seq<DomainDisk>, i: nat)
    requires i < |disks| && i < |result| && Described(disks, result, i)
    ensures |result[i].dev| > 2 && result[i].bus == disks[i].bus
    ensures result[i].bus == "ide" <==> result[i].dev[..2] == "hd"
    ensures result[i].bus == "scsi" <==> result[i].dev[..2] == "sd"
    ensures result[i].bus == "virtio" <==> result[i].dev[..2] == "vd"
  {
    var n := OnBus(disks, disks[i].bus, i) + 1;
    assert result[i].dev[..2] == BUS_TO_DEV_PREFIX[disks[i].bus];
    assert |Letters(n)| > 0;
  }

  /**
   Every machine boots from its boot volume as vda and has its configuration data in a drive sda; its other
   disks follow in the order of the configuration, each on its own bus and in its own format.
   */
  lemma {:induction false} MachineDevices(vmName: string, disks: seq<DiskConfig>, result: seq<DomainDisk>)
    requires var all := VmDisks(vmName, disks); |result| == |all| && AllDescribed(all, result)
    ensures |result| == |disks| + 2
    ensures result[0] == DomainDisk(Disk, Work(vmName), "virtio", "qcow2", true, "vda")
    ensures result[1] == DomainDisk(Cdrom, Work(vmName + "-cidata"), "scsi", "raw", false, "sda")
    ensures forall i :: 0 <= i < |disks| ==> IsExtraDisk(vmName, disks[i], result[i + 2])
  {
    var all := VmDisks(vmName, disks);
    assert Described(all, result, 0) && Described(all, result, 1);
    assert OnBus(all, "virtio", 0) == 0 && OnBus(all, "scsi", 1) == 0;
    assert Letters(0) == "" && Letters(1) == "a";
    forall i | 0 <= i < |disks| ensures IsExtraDisk(vmName, disks[i], result[i + 2]) {
      assert Described(all, result, i + 2);
    }
  }

  predicate IsExtraDisk(vmName: string, disk: DiskConfig, r: DomainDisk) {
    && r.device == Disk && r.discard && r.volume == Work(vmName + "-" + disk.name)
    && r.bus == disk.bus && r.format == disk.format
  }

  /** The letters on one bus have no gaps: if a disk got a letter, some earlier one got each letter before it. */
  lemma {:induction false} LettersWithoutGaps(disks: seq<VMDisk>, bus: string, k: nat, n: nat) returns (i: nat)
    requires k <= |disks| && n < OnBus(disks, bus, k)
    ensures i < k && disks[i].bus == bus && OnBus(disks, bus, i) == n
    decreases k
  {
    if OnBus(disks, bus, k - 1) == n {
      i := k - 1;
    } else {
      i := LettersWithoutGaps(disks, bus, k - 1, n);
    }
  }

  /** A configuration that was accepted never fails later on. */
  lemma {:induction false} AcceptedNeverFails(vmName: string, disks: seq<DiskConfig>)
    ensures CheckDisks(disks) ==> OnKnownBuses(VmDisks(vmName, disks))
    ensures forall i :: 0 <= i < |VmDisks(vmName, disks)| ==> VmDisks(vmName, disks)[i].volume.Work?
  {
    var all := VmDisks(vmName, disks);
    forall i | 0 <= i < |all| && CheckDisks(disks) ensures all[i].bus in BUS_TO_DEV_PREFIX {
      if i >= 2 {
        assert disks[i - 2] in disks;
        assert all[i].bus == disks[i - 2].bus;
      }
    }
  }
}

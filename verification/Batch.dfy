/**
 `vm run --count`: several machines started at once.  Their steps interleave freely on one libvirt,
 and any call may fail.  A step is one call, together with reads of what no machine of the batch
 changes: the host's capabilities, the network's address, the image's top layer.
 */
module Batch {
  import opened Wrappers
  import opened Volumes
  import opened Addresses
  import opened Libvirt
  import opened Dhcp
  import opened Devices
  import opened Machines

  // ---------------------------------------------------------------- names

  function DecimalDigit(k: int): char
    requires 0 <= k < 10
  {
    '0' + (k as char)
  }

  function Decimal(n: nat): string {
    if n < 10 then [DecimalDigit(n)] else Decimal(n / 10) + [DecimalDigit(n % 10)]
  }

  /** The machines: `count` of them, with consecutive identifiers. */
  datatype Batch = Batch(
    template: VMConfig,
    vmName: string,
    imageName: string,
    countChanged: bool,
    first: VmId,
    count: nat)

  ghost predicate IsBatch(b: Batch) {
    && b.first >= 2 && b.first + b.count <= 0xADAC_0000_0000
    && (!b.countChanged ==> b.count == 1)
    && (b.template.top.Some? ==> b.template.top.value.Layer?)
  }

  /** The supplied name only stands alone if there is a single machine. */
  function ThisVMName(vmName: string, imageName: string, countChanged: bool, id: VmId): string {
    if vmName == "" then imageName + "-" + Decimal(id)
    else if !countChanged then vmName
    else vmName + "-" + Decimal(id)
  }

  function Member(b: Batch, i: nat): (r: VMConfig)
    requires i < b.count && b.first + b.count <= 0xADAC_0000_0000
    ensures QemuFits(r.id)
  {
    QemuMacTotal(b.first + i);
    b.template.(name := ThisVMName(b.vmName, b.imageName, b.countChanged, b.first + i), id := b.first + i)
  }

  function DecimalValue(w: string): int {
    if w == "" then 0 else 10 * DecimalValue(w[..|w| - 1]) + (w[|w| - 1] as int - '0' as int)
  }

  lemma {:induction false} DecimalDecodes(n: nat)
    ensures DecimalValue(Decimal(n)) == n && Decimal(n) != "" && '-' !in Decimal(n)
  {
    var w := Decimal(n);
    if n < 10 {
      assert w[..0] == "" && w[0] == DecimalDigit(n);
      assert DecimalValue("") == 0;
    } else {
      DecimalDecodes(n / 10);
      assert w[..|w| - 1] == Decimal(n / 10) && w[|w| - 1] == DecimalDigit(n % 10);
    }
  }

  /** A suffix that is empty or starts with a dash. */
  predicate IsSuffix(suffix: string) {
    suffix == "" || suffix[0] == '-'
  }

  function UpToDash(w: string): string {
    if w == "" || w[0] == '-' then "" else [w[0]] + UpToDash(w[1..])
  }

  lemma {:induction false} UpToSuffix(a: string, suffix: string)
    requires '-' !in a && IsSuffix(suffix)
    ensures UpToDash(a + suffix) == a
  {
    if a == "" {
      assert a + suffix == suffix;
    } else {
      UpToSuffix(a[1..], suffix);
      assert (a + suffix)[1..] == a[1..] + suffix;
      assert a == [a[0]] + a[1..];
    }
  }

  /** What follows the dash. */
  function AfterBase(w: string, base: string): string {
    if |base| < |w| then w[|base| + 1..] else ""
  }

  lemma {:induction false} AfterBaseOf(base: string, rest: string)
    ensures AfterBase(base + "-" + rest, base) == rest
  {
  }

  /** Whatever follows the number, the number can be told. */
  lemma {:induction false} NumberDecides(base: string, a: nat, b: nat, x: string, y: string)
    requires IsSuffix(x) && IsSuffix(y)
    requires base + "-" + (Decimal(a) + x) == base + "-" + (Decimal(b) + y)
    ensures a == b
  {
    AfterBaseOf(base, Decimal(a) + x);
    AfterBaseOf(base, Decimal(b) + y);
    DecimalDecodes(a);
    DecimalDecodes(b);
    UpToSuffix(Decimal(a), x);
    UpToSuffix(Decimal(b), y);
  }

  lemma {:induction false} OwnName(cfg: VMConfig, n: Name) returns (suffix: string)
    requires n in VolumeNames(cfg)
    ensures IsSuffix(suffix) && n == Work(cfg.name + suffix)
  {
    var k :| 0 <= k < |VolumeNames(cfg)| && VolumeNames(cfg)[k] == n;
    if k == 0 {
      suffix := "";
      assert cfg.name + suffix == cfg.name;
    } else if k == 1 {
      suffix := "-cidata";
    } else {
      suffix := "-" + cfg.disks[k - 2].name;
      assert cfg.name + suffix == DiskVolumeName(cfg.name, cfg.disks[k - 2].name);
    }
  }

  function BaseName(b: Batch): string {
    if b.vmName == "" then b.imageName else b.vmName
  }

  lemma {:induction false} MemberName(b: Batch, i: nat, suffix: string)
    requires IsBatch(b) && i < b.count && b.count > 1
    ensures Member(b, i).name + suffix == BaseName(b) + "-" + (Decimal(b.first + i) + suffix)
  {
  }

  /**
   A name that was supplied stands alone if the count was not given; any other name is the supplied one, or
   else the image's, then a dash and the machine's identifier.
   */
  lemma {:induction false} NameTellsId(b: Batch, i: nat)
    requires IsBatch(b) && i < b.count
    ensures var name, base := Member(b, i).name, if b.vmName == "" then b.imageName else b.vmName;
            && (name == base <==> b.vmName != "" && !b.countChanged)
            && (name != base ==> |name| > |base| && name[..|base| + 1] == base + "-"
                                 && DecimalValue(name[|base| + 1..]) == b.first + i)
  {
    NumberedName(BaseName(b), b.first + i);
  }

  lemma {:induction false} NumberedName(base: string, id: nat)
    ensures var name := base + "-" + Decimal(id);
            |name| > |base| && name[..|base| + 1] == base + "-" && DecimalValue(name[|base| + 1..]) == id
  {
    var number := Decimal(id);
    DecimalDecodes(id);
    assert (base + "-" + number)[..|base| + 1] == base + "-";
    assert (base + "-" + number)[|base| + 1..] == number;
  }

  lemma {:induction false} SuffixedNamesApart(b: Batch, i: nat, j: nat, x: string, y: string)
    requires IsBatch(b) && i < j < b.count && IsSuffix(x) && IsSuffix(y)
    ensures Member(b, i).name + x != Member(b, j).name + y
  {
    MemberName(b, i, x);
    MemberName(b, j, y);
    if Member(b, i).name + x == Member(b, j).name + y {
      NumberDecides(BaseName(b), b.first + i, b.first + j, x, y);
    }
  }

  /** Two machines of a batch share neither a name, nor a MAC, nor the name of any volume. */
  lemma {:induction false} MembersApart(b: Batch, i: nat, j: nat)
    requires IsBatch(b) && i < j < b.count
    ensures Member(b, i).name != Member(b, j).name
    ensures QemuFits(b.first + i) && QemuFits(b.first + j) && QemuMAC(b.first + i) != QemuMAC(b.first + j)
    ensures forall n :: n in VolumeNames(Member(b, i)) ==> n !in VolumeNames(Member(b, j))
  {
    QemuMacInjective(b.first + i, b.first + j);
    SuffixedNamesApart(b, i, j, "", "");
    assert Member(b, i).name + "" == Member(b, i).name && Member(b, j).name + "" == Member(b, j).name;
    forall n | n in VolumeNames(Member(b, i)) && n in VolumeNames(Member(b, j)) ensures false {
      var x := OwnName(Member(b, i), n);
      var y := OwnName(Member(b, j), n);
      SuffixedNamesApart(b, i, j, x, y);
    }
  }

  /** The names of the machines, kept for provisioning them later. */
  method VMNames(b: Batch) returns (names: seq<string>)
    requires IsBatch(b)
    ensures |names| == b.count && forall i :: 0 <= i < b.count ==> names[i] == Member(b, i).name
    ensures Distinct(names)
  {
    var vmNames := new string[b.count](_ => "");
    for i := 0 to b.count
      invariant forall k :: 0 <= k < i ==> vmNames[k] == Member(b, k).name
    {
      vmNames[i] := ThisVMName(b.vmName, b.imageName, b.countChanged, b.first + i);
    }
    names := vmNames[..];
    forall i, j | 0 <= i < j < b.count ensures names[i] != names[j] {
      MembersApart(b, i, j);
    }
  }

  // ---------------------------------------------------------------- one machine's steps

  /** Where a start is: the checks passed, the domains whose interfaces are still to be read, the progress made. */
  datatype Pc =
    | Checking(passed: nat)
    | Scanning(rest: seq<string>)
    | Building(p: Progress, uploading: bool)
    | Ended(p: Progress)

  function ProgressOf(pc: Pc): Progress {
    match pc
    case Checking(_) => NotDefined
    case Scanning(_) => NotDefined
    case Building(p, _) => p
    case Ended(p) => p
  }

  /** The lookups before anything is changed; ok tells whether the call goes through. */
  ghost predicate CheckStep(w: string, cfg: VMConfig, s: State, passed: nat, pc': Pc, ok: bool)
    requires QemuFits(cfg.id)
  {
    var n := |VolumeNames(cfg)|;
    if passed == 0 then
      pc' == if ok && CheckVMConfig(cfg) && cfg.name !in s.domains then Checking(1) else Ended(NotDefined)
    else if passed <= n then
      pc' == if ok && VolumeNames(cfg)[passed - 1] !in s.vols then Checking(passed + 1) else Ended(NotDefined)
    else if passed == n + 1 then
      var found := GetVmId(s.networks, w, cfg.id, cfg.staticDhcp) == Success(cfg.id);
      pc' == if ok && found then Checking(n + 2) else Ended(NotDefined)
    else if ok then pc'.Scanning? && forall d :: d in pc'.rest <==> d in s.domains
    else pc' == Ended(NotDefined)
  }

  /** Reading the interfaces of one domain; one that has gone meanwhile is skipped. */
  ghost predicate ScanStep(cfg: VMConfig, s: State, rest: seq<string>, pc': Pc, ok: bool)
    requires QemuFits(cfg.id)
  {
    pc' == if rest == [] then Building(NotDefined, false)
           else if !ok || (rest[0] in s.domains && HasNic(s.domains[rest[0]], QemuMAC(cfg.id))) then Ended(NotDefined)
           else Scanning(rest[1..])
  }

  ghost predicate DefineStep(w: string, cfg: VMConfig, s: State, s': State, pc': Pc, ok: bool)
    requires QemuFits(cfg.id)
  {
    if ok && cfg.name !in s.domains then
      && s' == s.(domains := s.domains[cfg.name := Domain(true, false, Nics(cfg, w, cfg.id), VolumeNames(cfg), [])])
      && pc' == Building(Defined(cfg.id, [], 0, false, false), false)
    else s' == s && pc' == Ended(NotDefined)
  }

  /** A transfer that breaks off leaves something else behind. */
  ghost predicate UploadStep(cfg: VMConfig, s: State, p: Progress, s': State, pc': Pc, ok: bool)
    requires QemuFits(cfg.id)
    requires p.Defined?
  {
    var n := VolumeNames(cfg)[1];
    if n in s.vols then
      && ProgressOf(pc').Defined?
      && pc' == (if ok then Building(p.(data := cfg.ciData), false) else Ended(p.(data := ProgressOf(pc').data)))
      && s' == s.(vols := s.vols[n := Vol(s.vols[n].backing, ProgressOf(pc').data)])
    else s' == s && pc' == Ended(p)
  }

  ghost predicate CreateStep(cfg: VMConfig, s: State, p: Progress, s': State, pc': Pc, ok: bool)
    requires QemuFits(cfg.id)
    requires p.Defined? && p.m < |VolumeNames(cfg)|
  {
    var n := VolumeNames(cfg)[p.m];
    if ok && n !in s.vols && (p.m == 0 && cfg.top.Some? ==> cfg.top.value in s.vols) then
      && s' == s.(vols := s.vols[n := NewVolume(cfg.top, [], p.m)])
      && pc' == Building(p.(m := p.m + 1), p.m == 1)
    else s' == s && pc' == Ended(p)
  }

  ghost predicate HostStep(w: string, cfg: VMConfig, s: State, p: Progress, s': State, pc': Pc, ok: bool)
    requires QemuFits(cfg.id)
    requires p.Defined?
  {
    var added := AddHost(s.networks, w, QemuMAC(cfg.id), cfg.id);
    if ok && added.Success? then s' == s.(networks := added.value) && pc' == Building(p.(hosted := true), false)
    else s' == s && pc' == Ended(p)
  }

  ghost predicate StartStep(cfg: VMConfig, s: State, p: Progress, s': State, pc': Pc, ok: bool)
    requires QemuFits(cfg.id)
    requires p.Defined?
  {
    if ok && cfg.name in s.domains then
      && s' == s.(domains := SetDomain(s.domains, cfg.name, s.domains[cfg.name].(active := true)))
      && pc' == Ended(p.(active := true))
    else s' == s && pc' == Ended(p)
  }

  ghost predicate BuildStep(w: string, cfg: VMConfig, s: State, p: Progress, uploading: bool, s': State, pc': Pc,
                            ok: bool)
    requires QemuFits(cfg.id)
  {
    if p.NotDefined? then DefineStep(w, cfg, s, s', pc', ok)
    else if uploading then UploadStep(cfg, s, p, s', pc', ok)
    else if p.m < |VolumeNames(cfg)| then CreateStep(cfg, s, p, s', pc', ok)
    else if !p.hosted && !cfg.staticDhcp then HostStep(w, cfg, s, p, s', pc', ok)
    else StartStep(cfg, s, p, s', pc', ok)
  }

  ghost predicate MemberStep(w: string, cfg: VMConfig, s: State, pc: Pc, s': State, pc': Pc, ok: bool)
    requires QemuFits(cfg.id)
  {
    match pc
    case Checking(passed) => s' == s && CheckStep(w, cfg, s, passed, pc', ok)
    case Scanning(rest) => s' == s && ScanStep(cfg, s, rest, pc', ok)
    case Building(p, uploading) => BuildStep(w, cfg, s, p, uploading, s', pc', ok)
    case Ended(_) => false
  }

  // ---------------------------------------------------------------- the invariant

  predicate SameAt<K, V(==)>(a: map<K, V>, b: map<K, V>, k: K) {
    (k in a <==> k in b) && (k in a ==> a[k] == b[k])
  }

  function HostsOf(s: State, w: string): seq<Host> {
    if w in s.networks then s.networks[w].hosts else []
  }

  /** Only the host entries of the access network differ. */
  predicate SameNetworks(s: State, s': State, w: string) {
    if w in s.networks
    then w in s'.networks && s'.networks == s.networks[w := s.networks[w].(hosts := s'.networks[w].hosts)]
    else s'.networks == s.networks
  }

  /** The state if the machine had been started alone, that far. */
  ghost function Alone(s0: State, w: string, cfg: VMConfig, p: Progress): State
    requires QemuFits(cfg.id)
    requires p.Defined? ==> QemuFits(p.id) && InOrder(s0, w, cfg, p)
  {
    if p.Defined? then RunState(s0, w, cfg, p) else s0
  }

  ghost predicate VolumesAgree(cfg: VMConfig, s: State, t: State) {
    forall n :: n in VolumeNames(cfg) ==> SameAt(s.vols, t.vols, n)
  }

  /** On what belongs to the machine, the two states are the same. */
  ghost predicate Agree(w: string, cfg: VMConfig, s: State, t: State)
    requires QemuFits(cfg.id)
  {
    && VolumesAgree(cfg, s, t)
    && SameAt(s.domains, t.domains, cfg.name)
    && FindIPs(HostsOf(s, w), QemuMAC(cfg.id)) == FindIPs(HostsOf(t, w), QemuMAC(cfg.id))
  }

  ghost predicate PassedChecks(w: string, cfg: VMConfig, s0: State, passed: nat)
    requires QemuFits(cfg.id)
  {
    var n := |VolumeNames(cfg)|;
    && passed <= n + 2
    && (passed > 0 ==> CheckVMConfig(cfg) && cfg.name !in s0.domains)
    && (forall k :: 0 <= k < n && k < passed - 1 ==> VolumeNames(cfg)[k] !in s0.vols)
    && (passed == n + 2 ==> GetVmId(s0.networks, w, cfg.id, cfg.staticDhcp) == Success(cfg.id))
  }

  /** What a start has found out and done so far, as if it had been alone all the time. */
  ghost predicate Passed(w: string, cfg: VMConfig, s0: State, pc: Pc)
    requires QemuFits(cfg.id)
  {
    match pc
    case Checking(passed) => PassedChecks(w, cfg, s0, passed)
    case Scanning(rest) =>
      && PassedChecks(w, cfg, s0, |VolumeNames(cfg)| + 2)
      && forall d :: d in s0.domains ==> d in rest || !HasNic(s0.domains[d], QemuMAC(cfg.id))
    case Building(p, uploading) =>
      && RunChecks(s0, w, cfg, cfg.id)
      && (p.Defined? ==> p.id == cfg.id && InOrder(s0, w, cfg, p) && !p.active)
      && (uploading ==> p.Defined? && p.m == 2 && !p.hosted)
      && (p.Defined? && !uploading && p.m >= 2 ==> p.data == cfg.ciData)
      && (p.Defined? && (uploading || p.m < 2) ==> p.data == [])
    case Ended(p) =>
      p.Defined? ==> RunChecks(s0, w, cfg, cfg.id) && p.id == cfg.id && InOrder(s0, w, cfg, p)
                     && (p.active ==> p.data == cfg.ciData)
  }

  ghost predicate MemberIsolated(w: string, cfg: VMConfig, s0: State, s: State, pc: Pc)
    requires QemuFits(cfg.id)
  {
    && Passed(w, cfg, s0, pc)
    && Agree(w, cfg, s, Alone(s0, w, cfg, ProgressOf(pc)))
  }

  ghost predicate OwnsVolume(b: Batch, n: Name)
    requires IsBatch(b)
  {
    exists i :: 0 <= i < b.count && n in VolumeNames(Member(b, i))
  }

  ghost predicate OwnsDomain(b: Batch, d: string)
    requires IsBatch(b)
  {
    exists i :: 0 <= i < b.count && d == Member(b, i).name
  }

  ghost predicate OwnsMac(b: Batch, mac: Bytes)
    requires IsBatch(b)
  {
    exists i: VmId :: b.first <= i < b.first + b.count && IsMacOf(i, mac)
  }

  predicate IsMacOf(id: UInt, mac: Bytes) {
    QemuFits(id) && mac == QemuMAC(id)
  }

  /** What belongs to no machine of the batch is as it was. */
  ghost predicate OthersUntouched(b: Batch, w: string, s0: State, s: State)
    requires IsBatch(b)
  {
    && (forall n: Name :: !OwnsVolume(b, n) ==> SameAt(s.vols, s0.vols, n))
    && (forall d: string :: !OwnsDomain(b, d) ==> SameAt(s.domains, s0.domains, d))
    && (forall mac :: !OwnsMac(b, mac) ==> FindIPs(HostsOf(s, w), mac) == FindIPs(HostsOf(s0, w), mac))
    && SameNetworks(s0, s, w)
  }

  /** The shared state and where each start is. */
  datatype Run = Run(s: State, pcs: seq<Pc>)

  ghost predicate Isolated(b: Batch, w: string, s0: State, g: Run)
    requires IsBatch(b)
  {
    && |g.pcs| == b.count
    && (forall i :: 0 <= i < b.count ==> MemberIsolated(w, Member(b, i), s0, g.s, g.pcs[i]))
    && OthersUntouched(b, w, s0, g.s)
  }

  // ---------------------------------------------------------------- one step, its own machine

  lemma {:induction false} FindAppend(hosts: seq<Host>, h: Host, mac: Bytes)
    ensures FindIPs(hosts + [h], mac) == FindIPs(hosts, mac) + if h.mac == mac then [h.ip] else []
  {
    if hosts == [] {
      assert hosts + [h] == [h];
      assert FindIPs([h][1..], mac) == [];
    } else {
      FindAppend(hosts[1..], h, mac);
      assert (hosts + [h])[1..] == hosts[1..] + [h];
    }
  }

  /** What a step needs to know of the others: nothing that was there has gone or changed. */
  ghost predicate SeesInitial(cfg: VMConfig, s0: State, s: State) {
    && (forall d :: d in s0.domains ==> SameAt(s.domains, s0.domains, d))
    && (cfg.top.Some? ==> SameAt(s.vols, s0.vols, cfg.top.value))
  }

  lemma {:induction false} CheckStepIsolated(w: string, cfg: VMConfig, s0: State, s: State, passed: nat, pc': Pc,
                                             ok: bool)
    requires QemuFits(cfg.id)
    requires cfg.id >= 2 && PassedChecks(w, cfg, s0, passed) && Agree(w, cfg, s, s0)
    requires SeesInitial(cfg, s0, s) && SameNetworks(s0, s, w) && CheckStep(w, cfg, s, passed, pc', ok)
    ensures Passed(w, cfg, s0, pc') && ProgressOf(pc') == NotDefined
  {
    var names := VolumeNames(cfg);
    if 0 < passed <= |names| {
      assert names[passed - 1] in names;
      assert SameAt(s.vols, s0.vols, names[passed - 1]);
    }
  }

  lemma {:induction false} ScanStepIsolated(w: string, cfg: VMConfig, s0: State, s: State, rest: seq<string>, pc': Pc,
                                            ok: bool)
    requires QemuFits(cfg.id)
    requires Passed(w, cfg, s0, Scanning(rest)) && SeesInitial(cfg, s0, s) && ScanStep(cfg, s, rest, pc', ok)
    ensures Passed(w, cfg, s0, pc') && ProgressOf(pc') == NotDefined
  {
    if rest != [] {
      forall d | d in s0.domains && (rest[0] in s.domains ==> !HasNic(s.domains[rest[0]], QemuMAC(cfg.id)))
        ensures d in rest[1..] || !HasNic(s0.domains[d], QemuMAC(cfg.id)) {
        assert SameAt(s.domains, s0.domains, d);
        assert d in rest ==> d == rest[0] || d in rest[1..];
      }
    }
  }

  lemma {:induction false} DefineStepIsolated(w: string, cfg: VMConfig, s0: State, s: State, s': State, pc': Pc,
                                              ok: bool)
    requires QemuFits(cfg.id)
    requires Passed(w, cfg, s0, Building(NotDefined, false)) && Agree(w, cfg, s, s0)
    requires DefineStep(w, cfg, s, s', pc', ok)
    ensures MemberIsolated(w, cfg, s0, s', pc')
  {
    assert s0.vols + Created(VolumeNames(cfg), cfg.top, [], 0) == s0.vols;
  }

  lemma {:induction false} CreatedTwo(names: seq<Name>, top: Option<Name>, data: Bytes)
    requires |names| >= 2
    ensures Created(names, top, data, 2) == map[names[0] := Vol(top, [])][names[1] := Vol(None, data)]
  {
    assert Created(names, top, data, 0) == map[];
    assert Created(names, top, data, 1) == map[names[0] := Vol(top, [])];
  }

  lemma {:induction false} UploadStepIsolated(w: string, cfg: VMConfig, s0: State, s: State, p: Progress, s': State,
                                              pc': Pc, ok: bool)
    requires QemuFits(cfg.id)
    requires MemberIsolated(w, cfg, s0, s, Building(p, true)) && UploadStep(cfg, s, p, s', pc', ok)
    ensures MemberIsolated(w, cfg, s0, s', pc')
  {
    var names := VolumeNames(cfg);
    var t := Alone(s0, w, cfg, p);
    CreatedTwo(names, cfg.top, p.data);
    assert names[1] in names && SameAt(s.vols, t.vols, names[1]);
    var p' := ProgressOf(pc');
    CreatedTwo(names, cfg.top, p'.data);
    var t' := Alone(s0, w, cfg, p');
    forall n | n in names ensures SameAt(s'.vols, t'.vols, n) {
      assert SameAt(s.vols, t.vols, n);
    }
  }

  /** One volume more, alone. */
  lemma {:induction false} OneMoreAlone(w: string, cfg: VMConfig, s0: State, p: Progress)
    requires QemuFits(cfg.id)
    requires p.Defined? && QemuFits(p.id) && InOrder(s0, w, cfg, p)
    requires !p.hosted && !p.active && p.m < |VolumeNames(cfg)|
    requires VolumeNames(cfg)[p.m] !in Alone(s0, w, cfg, p).vols
    requires cfg.top.Some? ==> cfg.top.value.Layer? && cfg.top.value in s0.vols
    ensures var p' := p.(m := p.m + 1);
            var t := Alone(s0, w, cfg, p);
            && InOrder(s0, w, cfg, p')
            && Alone(s0, w, cfg, p') == t.(vols := t.vols[VolumeNames(cfg)[p.m] := NewVolume(cfg.top, p.data, p.m)])
  {
    CreateNext(s0.vols, Alone(s0, w, cfg, p).vols, VolumeNames(cfg), cfg.top, p.data, p.m);
  }

  lemma {:induction false} OneMoreAgrees(names: seq<Name>, a: Pool, b: Pool, n: Name, v: Vol)
    requires forall x :: x in names ==> SameAt(a, b, x)
    ensures forall x :: x in names ==> SameAt(a[n := v], b[n := v], x)
  {
    forall x | x in names ensures SameAt(a[n := v], b[n := v], x) {
      assert SameAt(a, b, x);
    }
  }

  lemma {:induction false} CreateStepIsolated(w: string, cfg: VMConfig, s0: State, s: State, p: Progress, s': State,
                                              pc': Pc, ok: bool)
    requires QemuFits(cfg.id)
    requires MemberIsolated(w, cfg, s0, s, Building(p, false)) && p.Defined? && p.m < |VolumeNames(cfg)|
    requires SeesInitial(cfg, s0, s) && (cfg.top.Some? ==> cfg.top.value.Layer?) && CreateStep(cfg, s, p, s', pc', ok)
    ensures MemberIsolated(w, cfg, s0, s', pc')
  {
    if pc'.Building? {
      var names, t := VolumeNames(cfg), Alone(s0, w, cfg, p);
      var n, v := names[p.m], NewVolume(cfg.top, p.data, p.m);
      assert n in names && SameAt(s.vols, t.vols, n);
      assert p.m < 2 ==> p.data == [];
      OneMoreAlone(w, cfg, s0, p);
      OneMoreAgrees(names, s.vols, t.vols, n, v);
      assert s'.vols == s.vols[n := v];
    }
  }

  lemma {:induction false} HostStepIsolated(w: string, cfg: VMConfig, s0: State, s: State, p: Progress, s': State,
                                            pc': Pc, ok: bool)
    requires QemuFits(cfg.id)
    requires MemberIsolated(w, cfg, s0, s, Building(p, false)) && p.Defined? && p.m == |VolumeNames(cfg)|
    requires !p.hosted && !cfg.staticDhcp && SameNetworks(s0, s, w) && HostStep(w, cfg, s, p, s', pc', ok)
    ensures MemberIsolated(w, cfg, s0, s', pc')
  {
    var mac := QemuMAC(cfg.id);
    var added := AddHost(s.networks, w, mac, cfg.id);
    if pc'.Building? {
      var h := Host(mac, PairedIP(s.networks[w].ipNet.value, cfg.id).value);
      FindAppend(s.networks[w].hosts, h, mac);
      FindAppend(s0.networks[w].hosts, h, mac);
    }
  }

  lemma {:induction false} StartStepIsolated(w: string, cfg: VMConfig, s0: State, s: State, p: Progress, s': State,
                                             pc': Pc, ok: bool)
    requires QemuFits(cfg.id)
    requires MemberIsolated(w, cfg, s0, s, Building(p, false)) && p.Defined? && p.m == |VolumeNames(cfg)|
    requires (p.hosted || cfg.staticDhcp) && StartStep(cfg, s, p, s', pc', ok)
    ensures MemberIsolated(w, cfg, s0, s', pc')
  {
  }

  /** A step keeps its own machine as it would be alone, whatever the other machines have done. */
  lemma {:induction false} OwnStepIsolated(w: string, cfg: VMConfig, s0: State, s: State, pc: Pc, s': State, pc': Pc,
                                           ok: bool)
    requires QemuFits(cfg.id)
    requires cfg.id >= 2 && (cfg.top.Some? ==> cfg.top.value.Layer?)
    requires MemberIsolated(w, cfg, s0, s, pc) && SeesInitial(cfg, s0, s) && SameNetworks(s0, s, w)
    requires MemberStep(w, cfg, s, pc, s', pc', ok)
    ensures MemberIsolated(w, cfg, s0, s', pc')
  {
    match pc
    case Checking(passed) =>
      CheckStepIsolated(w, cfg, s0, s, passed, pc', ok);
    case Scanning(rest) =>
      ScanStepIsolated(w, cfg, s0, s, rest, pc', ok);
    case Building(p, uploading) =>
      if p.NotDefined? {
        DefineStepIsolated(w, cfg, s0, s, s', pc', ok);
      } else if uploading {
        UploadStepIsolated(w, cfg, s0, s, p, s', pc', ok);
      } else if p.m < |VolumeNames(cfg)| {
        CreateStepIsolated(w, cfg, s0, s, p, s', pc', ok);
      } else if !p.hosted && !cfg.staticDhcp {
        HostStepIsolated(w, cfg, s0, s, p, s', pc', ok);
      } else {
        StartStepIsolated(w, cfg, s0, s, p, s', pc', ok);
      }
  }

  // ---------------------------------------------------------------- one step, everything else

  /** Only what belongs to the machine differs. */
  ghost predicate OnlyOwn(w: string, cfg: VMConfig, s: State, s': State)
    requires QemuFits(cfg.id)
  {
    && (forall n: Name :: n !in VolumeNames(cfg) ==> SameAt(s'.vols, s.vols, n))
    && (forall d: string :: d != cfg.name ==> SameAt(s'.domains, s.domains, d))
    && (forall mac :: !IsMacOf(cfg.id, mac) ==> FindIPs(HostsOf(s', w), mac) == FindIPs(HostsOf(s, w), mac))
    && SameNetworks(s, s', w)
  }

  lemma {:induction false} StepChangesOwn(w: string, cfg: VMConfig, s: State, pc: Pc, s': State, pc': Pc, ok: bool)
    requires QemuFits(cfg.id)
    requires MemberStep(w, cfg, s, pc, s', pc', ok)
    ensures OnlyOwn(w, cfg, s, s')
  {
    if pc.Building? {
      if pc.p.Defined? && !pc.uploading {
        LateStepChangesOwn(w, cfg, s, pc.p, s', pc', ok);
      }
    }
  }

  /** Once the domain is defined and nothing is being uploaded. */
  lemma {:induction false} LateStepChangesOwn(w: string, cfg: VMConfig, s: State, p: Progress, s': State, pc': Pc,
                                              ok: bool)
    requires QemuFits(cfg.id) && p.Defined?
    requires BuildStep(w, cfg, s, p, false, s', pc', ok)
    ensures OnlyOwn(w, cfg, s, s')
  {
    if s'.networks != s.networks {
      HostStepChangesOwn(w, cfg, s, p, s', pc', ok);
    }
  }

  lemma {:induction false} HostStepChangesOwn(w: string, cfg: VMConfig, s: State, p: Progress, s': State, pc': Pc,
                                              ok: bool)
    requires QemuFits(cfg.id) && p.Defined?
    requires HostStep(w, cfg, s, p, s', pc', ok) && s'.networks != s.networks
    ensures OnlyOwn(w, cfg, s, s')
  {
    var h := Host(QemuMAC(cfg.id), PairedIP(s.networks[w].ipNet.value, cfg.id).value);
    forall m | !IsMacOf(cfg.id, m) ensures FindIPs(HostsOf(s', w), m) == FindIPs(HostsOf(s, w), m) {
      FindAppend(s.networks[w].hosts, h, m);
    }
  }

  /** A step of one machine is no step for another. */
  lemma {:induction false} StepKeepsOther(b: Batch, w: string, s0: State, s: State, s': State, i: nat, j: nat, pc: Pc)
    requires IsBatch(b) && i < b.count && j < b.count && i != j
    requires OnlyOwn(w, Member(b, j), s, s') && MemberIsolated(w, Member(b, i), s0, s, pc)
    ensures MemberIsolated(w, Member(b, i), s0, s', pc)
  {
    MembersApart(b, if i < j then i else j, if i < j then j else i);
    var cfg := Member(b, i);
    OthersMac(b, QemuMAC(cfg.id), i, j);
    AgreeStays(w, cfg, Member(b, j), s, s', Alone(s0, w, cfg, ProgressOf(pc)));
  }

  /** Changing only what belongs to another machine keeps what belongs to this one. */
  lemma {:induction false} AgreeStays(w: string, cfg: VMConfig, other: VMConfig, s: State, s': State, t: State)
    requires QemuFits(cfg.id) && QemuFits(other.id) && !IsMacOf(other.id, QemuMAC(cfg.id))
    requires cfg.name != other.name && forall n :: n in VolumeNames(cfg) ==> n !in VolumeNames(other)
    requires OnlyOwn(w, other, s, s') && Agree(w, cfg, s, t)
    ensures Agree(w, cfg, s', t)
  {
    forall n | n in VolumeNames(cfg) ensures SameAt(s'.vols, t.vols, n) {
      assert SameAt(s'.vols, s.vols, n) && SameAt(s.vols, t.vols, n);
    }
    assert SameAt(s'.domains, s.domains, cfg.name);
  }

  lemma {:induction false} StepKeepsOutside(b: Batch, w: string, s0: State, s: State, s': State, j: nat)
    requires IsBatch(b) && j < b.count
    requires OnlyOwn(w, Member(b, j), s, s') && OthersUntouched(b, w, s0, s)
    ensures OthersUntouched(b, w, s0, s')
  {
    forall n: Name | !OwnsVolume(b, n) ensures SameAt(s'.vols, s0.vols, n) {
      assert n !in VolumeNames(Member(b, j));
      assert SameAt(s'.vols, s.vols, n) && SameAt(s.vols, s0.vols, n);
    }
    forall d: string | !OwnsDomain(b, d) ensures SameAt(s'.domains, s0.domains, d) {
      assert d != Member(b, j).name;
      assert SameAt(s'.domains, s.domains, d) && SameAt(s.domains, s0.domains, d);
    }
    forall mac | !OwnsMac(b, mac) ensures FindIPs(HostsOf(s', w), mac) == FindIPs(HostsOf(s0, w), mac) {
      assert !IsMacOf(Member(b, j).id, mac);
    }
  }

  /** What was there before the batch has neither gone nor changed. */
  lemma {:induction false} InitialStays(b: Batch, w: string, s0: State, g: Run, cfg: VMConfig)
    requires QemuFits(cfg.id)
    requires IsBatch(b) && Isolated(b, w, s0, g) && (cfg.top.Some? ==> cfg.top.value.Layer?)
    ensures SeesInitial(cfg, s0, g.s)
  {
    forall d | d in s0.domains ensures SameAt(g.s.domains, s0.domains, d) {
      if OwnsDomain(b, d) {
        var i :| 0 <= i < b.count && d == Member(b, i).name;
        assert MemberIsolated(w, Member(b, i), s0, g.s, g.pcs[i]);
      }
    }
    if cfg.top.Some? {
      assert !OwnsVolume(b, cfg.top.value);
    }
  }

  lemma {:induction false} Listed(domains: set<string>) returns (list: seq<string>)
    ensures forall d :: d in list <==> d in domains
    decreases domains
  {
    if domains == {} {
      list := [];
    } else {
      var d :| d in domains;
      var rest := Listed(domains - {d});
      list := [d] + rest;
    }
  }

  /** A machine that has not ended always has a next step, whether its call goes through or not. */
  lemma {:induction false} StepPossible(w: string, cfg: VMConfig, s0: State, s: State, pc: Pc, ok: bool)
    requires QemuFits(cfg.id)
    requires MemberIsolated(w, cfg, s0, s, pc) && !pc.Ended?
    ensures exists s', pc' :: MemberStep(w, cfg, s, pc, s', pc', ok)
  {
    match pc
    case Checking(passed) =>
      var list := Listed(s.domains.Keys);
      var n := |VolumeNames(cfg)|;
      var good :=
        if passed == 0 then CheckVMConfig(cfg) && cfg.name !in s.domains
        else if passed <= n then VolumeNames(cfg)[passed - 1] !in s.vols
        else passed > n + 1 || GetVmId(s.networks, w, cfg.id, cfg.staticDhcp) == Success(cfg.id);
      var pc' := if !ok || !good then Ended(NotDefined)
                 else if passed == n + 2 then Scanning(list)
                 else Checking(passed + 1);
      assert CheckStep(w, cfg, s, passed, pc', ok);
      assert MemberStep(w, cfg, s, pc, s, pc', ok);
    case Scanning(rest) =>
      var pc' := if rest == [] then Building(NotDefined, false)
                 else if !ok || (rest[0] in s.domains && HasNic(s.domains[rest[0]], QemuMAC(cfg.id)))
                 then Ended(NotDefined)
                 else Scanning(rest[1..]);
      assert MemberStep(w, cfg, s, pc, s, pc', ok);
    case Building(p, uploading) =>
      BuildStepPossible(w, cfg, s, p, uploading, ok);
  }

  lemma {:induction false} BuildStepPossible(w: string, cfg: VMConfig, s: State, p: Progress, uploading: bool, ok: bool)
    requires QemuFits(cfg.id)
    ensures exists s', pc' :: MemberStep(w, cfg, s, Building(p, uploading), s', pc', ok)
  {
    var names, added := VolumeNames(cfg), AddHost(s.networks, w, QemuMAC(cfg.id), cfg.id);
    var s', pc' := s, Ended(p);
    if p.NotDefined? {
      if ok && cfg.name !in s.domains {
        s' := s.(domains := s.domains[cfg.name := Domain(true, false, Nics(cfg, w, cfg.id), names, [])]);
        pc' := Building(Defined(cfg.id, [], 0, false, false), false);
      }
    } else if uploading {
      if names[1] in s.vols {
        pc' := if ok then Building(p.(data := cfg.ciData), false) else Ended(p);
        s' := s.(vols := s.vols[names[1] := Vol(s.vols[names[1]].backing, ProgressOf(pc').data)]);
      }
    } else if p.m < |names| {
      if ok && names[p.m] !in s.vols && (p.m == 0 && cfg.top.Some? ==> cfg.top.value in s.vols) {
        s' := s.(vols := s.vols[names[p.m] := NewVolume(cfg.top, [], p.m)]);
        pc' := Building(p.(m := p.m + 1), p.m == 1);
      }
    } else if !p.hosted && !cfg.staticDhcp {
      if ok && added.Success? {
        s', pc' := s.(networks := added.value), Building(p.(hosted := true), false);
      }
    } else if ok && cfg.name in s.domains {
      s' := s.(domains := SetDomain(s.domains, cfg.name, s.domains[cfg.name].(active := true)));
      pc' := Ended(p.(active := true));
    }
    assert MemberStep(w, cfg, s, Building(p, uploading), s', pc', ok);
  }

  // ---------------------------------------------------------------- whole runs

  /** One call of machine i. */
  ghost predicate RunStep(b: Batch, w: string, g: Run, g': Run, i: nat, ok: bool)
    requires IsBatch(b)
  {
    && i < b.count && |g.pcs| == b.count
    && |g'.pcs| == b.count && g'.pcs == g.pcs[i := g'.pcs[i]]
    && MemberStep(w, Member(b, i), g.s, g.pcs[i], g'.s, g'.pcs[i], ok)
  }

  lemma {:induction false} RunStepIsolated(b: Batch, w: string, s0: State, g: Run, g': Run, j: nat, ok: bool)
    requires IsBatch(b) && Isolated(b, w, s0, g) && RunStep(b, w, g, g', j, ok)
    ensures Isolated(b, w, s0, g')
  {
    var cfg := Member(b, j);
    StepChangesOwn(w, cfg, g.s, g.pcs[j], g'.s, g'.pcs[j], ok);
    StepKeepsOutside(b, w, s0, g.s, g'.s, j);
    InitialStays(b, w, s0, g, cfg);
    forall i | 0 <= i < b.count ensures MemberIsolated(w, Member(b, i), s0, g'.s, g'.pcs[i]) {
      assert MemberIsolated(w, Member(b, i), s0, g.s, g.pcs[i]);
      if i == j {
        OwnStepIsolated(w, cfg, s0, g.s, g.pcs[j], g'.s, g'.pcs[j], ok);
      } else {
        StepKeepsOther(b, w, s0, g.s, g'.s, i, j, g.pcs[i]);
        assert g'.pcs[i] == g.pcs[i];
      }
    }
  }

  datatype Turn = Turn(member: nat, ok: bool)

  /** Any interleaving: whose turn it is, and whether the call goes through, is left open. */
  ghost predicate Interleaving(b: Batch, w: string, trace: seq<Run>, turns: seq<Turn>)
    requires IsBatch(b)
  {
    && |trace| == |turns| + 1
    && trace[0].pcs == seq(b.count, i => Checking(0))
    && forall k, l :: 0 <= k < |turns| && l == k + 1 ==> RunStep(b, w, trace[k], trace[l], turns[k].member, turns[k].ok)
  }

  /**
   In every interleaving, at every moment, each machine has found, on everything that belongs to it,
   exactly the state that its own start alone would have produced by then, and nothing that belongs
   to no machine of the batch has changed.
   */
  lemma {:induction false} InterleavingIsolated(b: Batch, w: string, trace: seq<Run>, turns: seq<Turn>, k: nat)
    requires IsBatch(b) && Interleaving(b, w, trace, turns) && k < |trace|
    ensures Isolated(b, w, trace[0].s, trace[k])
    decreases k
  {
    if k > 0 {
      InterleavingIsolated(b, w, trace, turns, k - 1);
      RunStepIsolated(b, w, trace[0].s, trace[k - 1], trace[k], turns[k - 1].member, turns[k - 1].ok);
    } else {
      var g := trace[0];
      forall i | 0 <= i < b.count ensures MemberIsolated(w, Member(b, i), g.s, g.s, g.pcs[i]) {
        assert g.pcs[i] == Checking(0);
      }
    }
  }

  // ---------------------------------------------------------------- consequences

  /** No two domains have the same first interface, the one to the access network. */
  ghost predicate AccessMacsDistinct(domains: map<string, Domain>) {
    forall d, e :: d in domains && e in domains && d != e && domains[d].nics != [] && domains[e].nics != [] ==>
      domains[d].nics[0].mac != domains[e].nics[0].mac
  }

  lemma {:induction false} MemberDomain(w: string, cfg: VMConfig, s0: State, s: State, pc: Pc)
    requires QemuFits(cfg.id)
    requires MemberIsolated(w, cfg, s0, s, pc) && cfg.name in s.domains
    ensures QemuFits(cfg.id)
    ensures ProgressOf(pc).Defined? ==>
              RunChecks(s0, w, cfg, cfg.id) && s.domains[cfg.name].nics == [Nic(QemuMAC(cfg.id), w)] + cfg.extraNics
    ensures ProgressOf(pc).NotDefined? ==> cfg.name in s0.domains && s.domains[cfg.name] == s0.domains[cfg.name]
  {
  }

  /** The domain is that of machine i of the batch. */
  ghost predicate IsMembers(b: Batch, w: string, s0: State, s: State, d: string, i: nat)
    requires IsBatch(b) && d in s.domains && i < b.count
  {
    QemuMacTotal(b.first + i);
    && d == Member(b, i).name && !MacUsed(s0.domains, QemuMAC(b.first + i))
    && s.domains[d].nics == [Nic(QemuMAC(b.first + i), w)] + b.template.extraNics
  }

  lemma {:induction false} OneOfMembers(b: Batch, w: string, s0: State, s: State, pc: Pc, i: nat)
    requires IsBatch(b) && i < b.count && MemberIsolated(w, Member(b, i), s0, s, pc) && Member(b, i).name in s.domains
    ensures var d := Member(b, i).name;
            if ProgressOf(pc).Defined? then IsMembers(b, w, s0, s, d, i)
            else d in s0.domains && s.domains[d] == s0.domains[d]
  {
    MemberDomain(w, Member(b, i), s0, s, pc);
  }

  /** A domain is either an old one, as it was, or that of a machine of the batch. */
  ghost predicate Accounted(b: Batch, w: string, s0: State, s: State, d: string, i: nat)
    requires IsBatch(b) && d in s.domains
  {
    if i < b.count then IsMembers(b, w, s0, s, d, i) else d in s0.domains && s.domains[d] == s0.domains[d]
  }

  lemma {:induction false} WhoseDomain(b: Batch, w: string, s0: State, g: Run, d: string) returns (i: nat)
    requires IsBatch(b) && Isolated(b, w, s0, g) && d in g.s.domains
    ensures Accounted(b, w, s0, g.s, d, i)
  {
    i := b.count;
    if OwnsDomain(b, d) {
      var k :| 0 <= k < b.count && d == Member(b, k).name;
      OneOfMembers(b, w, s0, g.s, g.pcs[k], k);
      i := if ProgressOf(g.pcs[k]).Defined? then k else b.count;
    } else {
      assert SameAt(g.s.domains, s0.domains, d);
    }
  }

  lemma {:induction false} DomainsApart(b: Batch, w: string, s0: State, s: State, d: string, e: string, i: nat, j: nat)
    requires IsBatch(b) && d in s.domains && e in s.domains && d != e && i < b.count
    requires Accounted(b, w, s0, s, d, i) && Accounted(b, w, s0, s, e, j)
    ensures s.domains[e].nics != [] ==> s.domains[d].nics[0].mac != s.domains[e].nics[0].mac
  {
    QemuMacTotal(b.first + i);
    if j < b.count {
      QemuMacInjective(b.first + i, b.first + j);
    } else {
      assert !HasNic(s0.domains[e], QemuMAC(b.first + i));
    }
  }

  /** Every machine keeps a MAC of its own, in every interleaving and at every moment. */
  lemma {:induction false} AccessMacsStayDistinct(b: Batch, w: string, trace: seq<Run>, turns: seq<Turn>, k: nat)
    requires IsBatch(b) && Interleaving(b, w, trace, turns) && k < |trace|
    requires AccessMacsDistinct(trace[0].s.domains)
    ensures AccessMacsDistinct(trace[k].s.domains)
  {
    InterleavingIsolated(b, w, trace, turns, k);
    IsolatedMacsDistinct(b, w, trace[0].s, trace[k]);
  }

  lemma {:induction false} IsolatedMacsDistinct(b: Batch, w: string, s0: State, g: Run)
    requires IsBatch(b) && Isolated(b, w, s0, g) && AccessMacsDistinct(s0.domains)
    ensures AccessMacsDistinct(g.s.domains)
  {
    var now := g.s.domains;
    forall d, e | d in now && e in now && d != e && now[d].nics != [] && now[e].nics != []
      ensures now[d].nics[0].mac != now[e].nics[0].mac {
      var i := WhoseDomain(b, w, s0, g, d);
      var j := WhoseDomain(b, w, s0, g, e);
      if i < b.count {
        DomainsApart(b, w, s0, g.s, d, e, i, j);
      } else if j < b.count {
        DomainsApart(b, w, s0, g.s, e, d, j, i);
      }
    }
  }

  ghost predicate OneEntryPerMac(hosts: seq<Host>) {
    forall mac :: |FindIPs(hosts, mac)| <= 1
  }

  /** Nor does any MAC ever get a second entry. */
  lemma {:induction false} EntriesStayUnique(b: Batch, w: string, trace: seq<Run>, turns: seq<Turn>, k: nat)
    requires IsBatch(b) && Interleaving(b, w, trace, turns) && k < |trace|
    requires OneEntryPerMac(HostsOf(trace[0].s, w))
    ensures OneEntryPerMac(HostsOf(trace[k].s, w))
  {
    InterleavingIsolated(b, w, trace, turns, k);
    forall mac ensures |FindIPs(HostsOf(trace[k].s, w), mac)| <= 1 {
      IsolatedEntryUnique(b, w, trace[0].s, trace[k], mac);
    }
  }

  lemma {:induction false} IsolatedEntryUnique(b: Batch, w: string, s0: State, g: Run, mac: Bytes)
    requires IsBatch(b) && Isolated(b, w, s0, g) && OneEntryPerMac(HostsOf(s0, w))
    ensures |FindIPs(HostsOf(g.s, w), mac)| <= 1
  {
    assert |FindIPs(HostsOf(s0, w), mac)| <= 1;
    if OwnsMac(b, mac) {
      var id: VmId :| b.first <= id < b.first + b.count && IsMacOf(id, mac);
      var i := id - b.first;
      MemberHasOneEntry(w, Member(b, i), s0, g.s, g.pcs[i], mac);
    }
  }

  lemma {:induction false} AloneHasOneEntry(w: string, cfg: VMConfig, s0: State, pc: Pc, mac: Bytes)
    requires QemuFits(cfg.id)
    requires cfg.id >= 2 && Passed(w, cfg, s0, pc) && IsMacOf(cfg.id, mac) && |FindIPs(HostsOf(s0, w), mac)| <= 1
    ensures |FindIPs(HostsOf(Alone(s0, w, cfg, ProgressOf(pc)), w), mac)| <= 1
  {
    var p := ProgressOf(pc);
    if p.Defined? && p.hosted {
      var h := Host(mac, PairedIP(s0.networks[w].ipNet.value, cfg.id).value);
      FindAppend(s0.networks[w].hosts, h, mac);
      assert FindIPs(s0.networks[w].hosts, mac) == [];
    }
  }

  lemma {:induction false} MemberHasOneEntry(w: string, cfg: VMConfig, s0: State, s: State, pc: Pc, mac: Bytes)
    requires QemuFits(cfg.id)
    requires cfg.id >= 2 && MemberIsolated(w, cfg, s0, s, pc)
    requires IsMacOf(cfg.id, mac) && |FindIPs(HostsOf(s0, w), mac)| <= 1
    ensures |FindIPs(HostsOf(s, w), mac)| <= 1
  {
    AloneHasOneEntry(w, cfg, s0, pc, mac);
  }

  /** The machine could be started if it were alone, and the interfaces of the others do not use its MAC. */
  ghost predicate Startable(b: Batch, w: string, s0: State, i: nat)
    requires IsBatch(b) && i < b.count
  {
    QemuMacTotal(b.first + i);
    && RunChecks(s0, w, Member(b, i), b.first + i) && Feasible(s0, w, Member(b, i), b.first + i)
    && NoExtraNic(b, QemuMAC(b.first + i))
  }

  /**
   The machines of a batch do not get in each other's way: a machine that could be started alone
   only ever ends because a call failed, or because it is running.
   */
  lemma {:induction false} NoInterference(b: Batch, w: string, s0: State, g: Run, g': Run, i: nat)
    requires IsBatch(b) && Isolated(b, w, s0, g) && i < b.count && Startable(b, w, s0, i)
    requires RunStep(b, w, g, g', i, true)
    ensures g'.pcs[i].Ended? ==> g'.pcs[i].p.Defined? && g'.pcs[i].p.active
  {
    var cfg, s, s', pc, pc' := Member(b, i), g.s, g'.s, g.pcs[i], g'.pcs[i];
    InitialStays(b, w, s0, g, cfg);
    assert MemberIsolated(w, cfg, s0, s, pc);
    match pc
    case Checking(passed) =>
      ChecksPass(w, cfg, s0, s, passed, pc');
    case Scanning(rest) =>
      if rest != [] && rest[0] in s.domains {
        ScanPasses(b, w, s0, g, i, rest[0]);
      }
    case Building(p, uploading) =>
      BuildPasses(w, cfg, s0, s, p, uploading, s', pc');
  }

  /** The machine has not been given up. */
  predicate NotLost(g: Run, i: nat) {
    i < |g.pcs| && (g.pcs[i].Ended? ==> g.pcs[i].p.Defined? && g.pcs[i].p.active)
  }

  lemma {:induction false} StepLosesNone(b: Batch, w: string, s0: State, g: Run, g': Run, i: nat, turn: Turn)
    requires IsBatch(b) && Isolated(b, w, s0, g) && i < b.count && Startable(b, w, s0, i)
    requires RunStep(b, w, g, g', turn.member, turn.ok) && NotLost(g, i) && (turn.member == i ==> turn.ok)
    ensures NotLost(g', i)
  {
    if turn.member == i {
      NoInterference(b, w, s0, g, g', i);
    } else {
      assert g'.pcs[i] == g.pcs[i];
    }
  }

  /** Over a whole interleaving: if none of its calls failed, a machine that could be started alone is not lost. */
  lemma {:induction false} StartableMachinesRun(b: Batch, w: string, trace: seq<Run>, turns: seq<Turn>, i: nat, k: nat)
    requires IsBatch(b) && Interleaving(b, w, trace, turns) && i < b.count && k < |trace|
    requires Startable(b, w, trace[0].s, i)
    requires forall l :: 0 <= l < k && turns[l].member == i ==> turns[l].ok
    ensures NotLost(trace[k], i)
    decreases k
  {
    if k > 0 {
      StartableMachinesRun(b, w, trace, turns, i, k - 1);
      InterleavingIsolated(b, w, trace, turns, k - 1);
      StepLosesNone(b, w, trace[0].s, trace[k - 1], trace[k], i, turns[k - 1]);
    } else {
      assert trace[0].pcs[i] == Checking(0);
    }
  }

  lemma {:induction false} BuildPasses(w: string, cfg: VMConfig, s0: State, s: State, p: Progress, uploading: bool,
                                       s': State, pc': Pc)
    requires QemuFits(cfg.id)
    requires MemberIsolated(w, cfg, s0, s, Building(p, uploading)) && BuildStep(w, cfg, s, p, uploading, s', pc', true)
    requires RunChecks(s0, w, cfg, cfg.id) && Feasible(s0, w, cfg, cfg.id)
    requires SeesInitial(cfg, s0, s) && SameNetworks(s0, s, w)
    ensures pc'.Ended? ==> pc'.p.Defined? && pc'.p.active
  {
    if p.Defined? {
      if uploading {
        UploadPasses(w, cfg, s0, s, p);
      } else if p.m < |VolumeNames(cfg)| {
        CreatePasses(w, cfg, s0, s, p);
      }
    }
  }

  lemma {:induction false} UploadPasses(w: string, cfg: VMConfig, s0: State, s: State, p: Progress)
    requires QemuFits(cfg.id)
    requires MemberIsolated(w, cfg, s0, s, Building(p, true))
    ensures VolumeNames(cfg)[1] in s.vols
  {
    var names, t := VolumeNames(cfg), Alone(s0, w, cfg, p);
    CreatedTwo(names, cfg.top, p.data);
    assert names[1] in names && SameAt(s.vols, t.vols, names[1]);
  }

  lemma {:induction false} ChecksPass(w: string, cfg: VMConfig, s0: State, s: State, passed: nat, pc': Pc)
    requires QemuFits(cfg.id)
    requires cfg.id >= 2 && RunChecks(s0, w, cfg, cfg.id) && Agree(w, cfg, s, s0) && SameNetworks(s0, s, w)
    requires CheckStep(w, cfg, s, passed, pc', true)
    ensures !pc'.Ended?
  {
    var names := VolumeNames(cfg);
    if 0 < passed <= |names| {
      assert names[passed - 1] in names && SameAt(s.vols, s0.vols, names[passed - 1]);
    }
  }

  lemma {:induction false} OwnDomainAbsent(w: string, cfg: VMConfig, s0: State, s: State, pc: Pc)
    requires QemuFits(cfg.id)
    requires MemberIsolated(w, cfg, s0, s, pc) && ProgressOf(pc).NotDefined? && cfg.name !in s0.domains
    ensures cfg.name !in s.domains
  {
  }

  lemma {:induction false} ScanPasses(b: Batch, w: string, s0: State, g: Run, i: nat, d: string)
    requires IsBatch(b) && Isolated(b, w, s0, g) && i < b.count && Startable(b, w, s0, i)
    requires d in g.s.domains && ProgressOf(g.pcs[i]).NotDefined?
    ensures QemuFits(b.first + i) && !HasNic(g.s.domains[d], QemuMAC(b.first + i))
  {
    var mac := StartableMac(b, w, s0, i);
    OwnDomainAbsent(w, Member(b, i), s0, g.s, g.pcs[i]);
    var j := WhoseDomain(b, w, s0, g, d);
    NotMine(b, w, s0, g.s, d, mac, i, j);
  }

  /** The MAC of a machine that could be started alone: nobody has it. */
  lemma {:induction false} StartableMac(b: Batch, w: string, s0: State, i: nat) returns (mac: Bytes)
    requires IsBatch(b) && i < b.count && Startable(b, w, s0, i)
    ensures IsMacOf(b.first + i, mac) && !MacUsed(s0.domains, mac) && NoExtraNic(b, mac)
  {
    QemuMacTotal(b.first + i);
    mac := QemuMAC(b.first + i);
    MacIsUnused(s0, w, Member(b, i), b.first + i);
  }

  lemma {:induction false} NotMine(b: Batch, w: string, s0: State, s: State, d: string, mac: Bytes, i: nat, j: nat)
    requires IsBatch(b) && i < b.count && d in s.domains && d != Member(b, i).name
    requires IsMacOf(b.first + i, mac) && !MacUsed(s0.domains, mac) && NoExtraNic(b, mac)
    requires Accounted(b, w, s0, s, d, j)
    ensures !HasNic(s.domains[d], mac)
  {
    if j < b.count {
      OthersMac(b, mac, i, j);
      OthersNics(b, w, s0, s, d, j, mac);
    } else {
      assert s.domains[d] == s0.domains[d];
    }
  }

  lemma {:induction false} OthersMac(b: Batch, mac: Bytes, i: nat, j: nat)
    requires IsBatch(b) && i < b.count && j < b.count && IsMacOf(b.first + i, mac)
    ensures i != j ==> !IsMacOf(b.first + j, mac)
  {
    QemuMacInjective(b.first + i, b.first + j);
  }

  ghost predicate NoExtraNic(b: Batch, mac: Bytes) {
    forall k :: 0 <= k < |b.template.extraNics| ==> b.template.extraNics[k].mac != mac
  }

  lemma {:induction false} OthersNics(b: Batch, w: string, s0: State, s: State, d: string, j: nat, mac: Bytes)
    requires IsBatch(b) && d in s.domains && j < b.count && IsMembers(b, w, s0, s, d, j)
    requires !IsMacOf(b.first + j, mac) && NoExtraNic(b, mac)
    ensures !HasNic(s.domains[d], mac)
  {
    var nics := s.domains[d].nics;
    forall k | 0 <= k < |nics| ensures nics[k].mac != mac {
      assert k > 0 ==> nics[k] == b.template.extraNics[k - 1];
    }
  }

  lemma {:induction false} CreatePasses(w: string, cfg: VMConfig, s0: State, s: State, p: Progress)
    requires QemuFits(cfg.id)
    requires MemberIsolated(w, cfg, s0, s, Building(p, false)) && p.Defined? && p.m < |VolumeNames(cfg)|
    requires RunChecks(s0, w, cfg, cfg.id) && Distinct(VolumeNames(cfg))
    ensures VolumeNames(cfg)[p.m] !in s.vols
  {
    var names, t := VolumeNames(cfg), Alone(s0, w, cfg, p);
    assert names[p.m] in names && SameAt(s.vols, t.vols, names[p.m]);
    if names[p.m] in t.vols {
      AlreadyCreated(s0.vols, t.vols, names, cfg.top, p.data, p.m);
    }
  }
}

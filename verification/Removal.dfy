/**
 Removing a machine.  Any call may fail; a removal that was cut short can be repeated, because
 the domain, which says what belongs to the machine, goes last.
 */
module Removal {
  import opened Errors
  import opened Wrappers
  import opened Volumes
  import opened Collector
  import opened Libvirt
  import opened Layers
  import opened Dhcp

  // ---------------------------------------------------------------- removal as a function

  /** The MACs a machine has on one network. */
  function MacsOn(nics: seq<Nic>, w: string): set<Bytes> {
    if w == "" then {} else set nic | nic in nics && nic.network == w :: nic.mac
  }

  function Keep(hosts: seq<Host>, macs: set<Bytes>): seq<Host> {
    if hosts == [] then []
    else if hosts[0].mac in macs then Keep(hosts[1..], macs)
    else [hosts[0]] + Keep(hosts[1..], macs)
  }

  /** The networks without the entries of a machine's interfaces. */
  function HostsRemoved(networks: map<string, Network>, nics: seq<Nic>): map<string, Network> {
    map w | w in networks :: networks[w].(hosts := Keep(networks[w].hosts, MacsOn(nics, w)))
  }

  /** The volumes after deleting a list of disks, all but one that is to be kept. */
  function RemoveDisks(p: Pool, disks: seq<Name>, keep: Option<Name>): (Pool, Outcome<Error>)
    decreases |disks|
  {
    if disks == [] then (p, Pass)
    else if keep == Some(disks[0]) || disks[0] !in p then RemoveDisks(p, disks[1..], keep)
    else
      var r := Collect(p, disks[0]);
      if r.outcome.Fail? then (r.pool, r.outcome) else RemoveDisks(r.pool, disks[1..], keep)
  }

  function Kept(name: string, removeBoot: bool): Option<Name> {
    if removeBoot then None else Some(Work(name))
  }

  /** VMRm when no call fails. */
  function Remove(s: State, name: string, removeDHCP: bool, removeBoot: bool): (State, Outcome<Error>) {
    if name !in s.domains then (s, Pass)
    else
      var d := s.domains[name].(snapshots := [], active := s.domains[name].active && !s.domains[name].persistent);
      var networks := if removeDHCP then HostsRemoved(s.networks, d.nics) else s.networks;
      var (vols, outcome) := RemoveDisks(s.vols, d.disks, Kept(name, removeBoot));
      if outcome.Fail? then (State(vols, s.domains[name := d], networks), outcome)
      else (State(vols, s.domains - {name}, networks), Pass)
  }

  // ---------------------------------------------------------------- where every removal is headed

  /** The volumes of a machine that are to go. */
  function Doomed(d: Domain, name: string, removeBoot: bool): set<Name> {
    set n | n in d.disks && !n.Layer? && Kept(name, removeBoot) != Some(n)
  }

  /** The state a removal leads to in the end, up to layers that are no longer in use. */
  ghost function Goal(s: State, name: string, removeDHCP: bool, removeBoot: bool): State {
    if name !in s.domains then State(Sweep(s.vols), s.domains, s.networks)
    else
      var d := s.domains[name];
      State(Sweep(s.vols - Doomed(d, name, removeBoot)), s.domains - {name},
            if removeDHCP then HostsRemoved(s.networks, d.nics) else s.networks)
  }

  /** Every domain is persistent or active. */
  ghost predicate LiveDomains(domains: map<string, Domain>) {
    forall d :: d in domains ==> domains[d].persistent || domains[d].active
  }

  /** No network lists the same entry twice. */
  ghost predicate NoRepeats(networks: map<string, Network>) {
    forall w :: w in networks ==> Distinct(networks[w].hosts)
  }

  /** On every network entries have gone, and none has come. */
  ghost predicate FewerEntries(networks: map<string, Network>, networks': map<string, Network>) {
    && networks'.Keys == networks.Keys
    && forall w :: w in networks ==>
         networks'[w].ipNet == networks[w].ipNet && Fewer(networks[w].hosts, networks'[w].hosts)
  }

  /** The domain may have been stopped, and its oldest snapshots may have gone; nothing else about it differs. */
  ghost predicate Lessened(d: Domain, d': Domain) {
    && d' == d.(active := d'.active, snapshots := d'.snapshots)
    && (d'.active ==> d.active) && (d.active && !d.persistent ==> d'.active)
    && |d'.snapshots| <= |d.snapshots| && d'.snapshots == d.snapshots[|d.snapshots| - |d'.snapshots|..]
  }

  /** What one attempt at a removal does, however far it gets; `done` if it reported success. */
  ghost predicate Attempt(s: State, s': State, name: string, removeDHCP: bool, removeBoot: bool, done: bool) {
    && Goal(s', name, removeDHCP, removeBoot) == Goal(s, name, removeDHCP, removeBoot)
    && Sound(s'.vols) && Submap(s'.vols, s.vols) && LiveDomains(s'.domains)
    && FewerEntries(s.networks, s'.networks)
    && (name !in s.domains ==> s' == s)
    && (done ==> name !in s'.domains)
    && (!done && name in s.domains ==>
          name in s'.domains && Lessened(s.domains[name], s'.domains[name]))
  }

  // ---------------------------------------------------------------- host entries

  lemma {:induction false} FewerOnOne(before: map<string, Network>, networks: map<string, Network>,
                                      networks': map<string, Network>, w: string)
    requires FewerEntries(before, networks) && w in networks && w in networks'
    requires networks' == networks[w := networks[w].(hosts := networks'[w].hosts)]
    requires Fewer(networks[w].hosts, networks'[w].hosts)
    ensures FewerEntries(before, networks')
  {
  }

  /** The entries of one interface; a network that does not exist has none. */
  method RemoveNicDHCP(c: Connection, nics: seq<Nic>, i: nat, removeEntries: bool, ghost before: map<string, Network>)
    returns (r: Outcome<Error>)
    requires i < |nics| && RemovedThrough(before, c.networks, nics, i, removeEntries)
    modifies c`networks, c`faults
    ensures c.faults >= old(c.faults)
    ensures r.Pass? ==> c.faults == old(c.faults)
    ensures FewerEntries(before, c.networks)
    ensures if removeEntries then HostsRemoved(c.networks, nics) == HostsRemoved(before, nics) else c.networks == before
    ensures r.Pass? ==> RemovedThrough(before, c.networks, nics, i + 1, removeEntries)
    ensures c.faults == old(c.faults) && (removeEntries ==> NoRepeats(before)) ==> r.Pass?
  {
    RemovedOnTheWay(before, nics, i);
    var nic := nics[i];
    if nic.network == "" {
      return Pass;
    }
    var found := c.LookupNetwork(nic.network);
    if found.Fail? {
      return if found.error == NoNetwork then Pass else found;
    }
    var ips := ReadIPs(c, nic.network, nic.mac);
    if ips.Failure? {
      return Fail(ips.error);
    }
    if !removeEntries {
      return Pass;
    }
    ghost var networks := c.networks;
    if NoRepeats(before) {
      DistinctAfterKeep(before[nic.network].hosts, MacsOn(nics[..i], nic.network), nic.mac);
    }
    r := RemoveDHCPEntries(c, nic.network, nic.mac, ips.value);
    OneMacRemoved(before, networks, c.networks, nics, i);
    FewerOnOne(before, networks, c.networks, nic.network);
  }

  /** The entries of the first i interfaces are dealt with. */
  ghost predicate RemovedThrough(before: map<string, Network>, networks: map<string, Network>, nics: seq<Nic>, i: nat,
                                 removeEntries: bool)
    requires i <= |nics|
  {
    networks == (if removeEntries then HostsRemoved(before, nics[..i]) else before) && FewerEntries(before, networks)
  }

  lemma {:induction false} RemovedNone(networks: map<string, Network>, nics: seq<Nic>, removeEntries: bool)
    ensures RemovedThrough(networks, networks, nics, 0, removeEntries)
  {
    NothingRemoved(networks, nics[..0]);
  }

  lemma {:induction false} RemovedAll(before: map<string, Network>, networks: map<string, Network>, nics: seq<Nic>,
                                      removeEntries: bool)
    requires RemovedThrough(before, networks, nics, |nics|, removeEntries)
    ensures networks == if removeEntries then HostsRemoved(before, nics) else before
    ensures HostsRemoved(networks, nics) == HostsRemoved(before, nics)
  {
    assert nics[..|nics|] == nics;
    RemovedTwice(before, nics);
  }

  method RemoveDomainDHCP(c: Connection, name: string, removeEntries: bool) returns (r: Outcome<Error>)
    requires name in c.domains
    modifies c`networks, c`faults
    ensures c.faults >= old(c.faults)
    ensures r.Pass? ==> c.faults == old(c.faults)
    ensures !removeEntries ==> c.networks == old(c.networks)
    ensures FewerEntries(old(c.networks), c.networks)
    ensures var nics := c.domains[name].nics;
            && HostsRemoved(c.networks, nics) == HostsRemoved(old(c.networks), nics)
            && (r.Pass? && removeEntries ==> c.networks == HostsRemoved(old(c.networks), nics))
    ensures c.faults == old(c.faults) && (removeEntries ==> NoRepeats(old(c.networks))) ==> r.Pass?
  {
    ghost var before := c.networks;
    var desc := c.DescribeDomain(name);
    if desc.Failure? {
      return Fail(desc.error);
    }
    var nics := desc.value.nics;
    RemovedNone(before, nics, removeEntries);
    for i := 0 to |nics|
      invariant c.faults == old(c.faults)
      invariant RemovedThrough(before, c.networks, nics, i, removeEntries)
    {
      r := RemoveNicDHCP(c, nics, i, removeEntries, before);
      if r.Fail? {
        return;
      }
    }
    RemovedAll(before, c.networks, nics, removeEntries);
    return Pass;
  }

  lemma {:induction false} KeepAll(hosts: seq<Host>, macs: set<Bytes>)
    requires forall h :: h in hosts ==> h.mac !in macs
    ensures Keep(hosts, macs) == hosts
  {
    if hosts != [] {
      KeepAll(hosts[1..], macs);
    }
  }

  lemma {:induction false} KeepMore(hosts: seq<Host>, macs: set<Bytes>, more: set<Bytes>)
    requires macs <= more
    ensures Keep(Keep(hosts, macs), more) == Keep(hosts, more)
  {
    if hosts != [] {
      KeepMore(hosts[1..], macs, more);
      var kept := Keep(hosts, macs);
      assert hosts[0].mac !in macs ==> kept[0] == hosts[0] && kept[1..] == Keep(hosts[1..], macs);
    }
  }

  lemma {:induction false} KeepIsWithoutMac(hosts: seq<Host>, mac: Bytes)
    ensures Keep(hosts, {mac}) == WithoutMac(hosts, mac)
  {
    if hosts != [] {
      KeepIsWithoutMac(hosts[1..], mac);
    }
  }

  lemma {:induction false} KeepOneMore(hosts: seq<Host>, macs: set<Bytes>, mac: Bytes)
    ensures WithoutMac(Keep(hosts, macs), mac) == Keep(hosts, macs + {mac})
  {
    if hosts != [] {
      KeepOneMore(hosts[1..], macs, mac);
      var kept := Keep(hosts, macs);
      assert hosts[0].mac !in macs ==> kept[0] == hosts[0] && kept[1..] == Keep(hosts[1..], macs);
    }
  }

  /** Entries that differ only in a MAC that goes anyway make no difference. */
  lemma {:induction false} KeepIgnores(hosts: seq<Host>, hosts': seq<Host>, mac: Bytes, macs: set<Bytes>)
    requires mac in macs && WithoutMac(hosts', mac) == WithoutMac(hosts, mac)
    ensures Keep(hosts', macs) == Keep(hosts, macs)
  {
    KeepIsWithoutMac(hosts, mac);
    KeepIsWithoutMac(hosts', mac);
    KeepMore(hosts, {mac}, macs);
    KeepMore(hosts', {mac}, macs);
  }

  lemma {:induction false} KeptIsIn(hosts: seq<Host>, macs: set<Bytes>)
    ensures forall h :: h in Keep(hosts, macs) <==> h in hosts && h.mac !in macs
    ensures Distinct(hosts) ==> Distinct(Keep(hosts, macs))
  {
    if hosts != [] {
      var rest := hosts[1..];
      KeptIsIn(rest, macs);
      if Distinct(hosts) {
        assert hosts[0] !in rest;
        assert Distinct(rest);
      }
    }
  }

  lemma {:induction false} DistinctIPs(hosts: seq<Host>, mac: Bytes)
    requires Distinct(hosts)
    ensures Distinct(FindIPs(hosts, mac))
  {
    if hosts != [] {
      var rest := hosts[1..];
      assert Distinct(rest) && hosts[0] !in rest;
      DistinctIPs(rest, mac);
      FoundIffPresent(rest, mac);
    }
  }

  lemma {:induction false} DistinctAfterKeep(hosts: seq<Host>, macs: set<Bytes>, mac: Bytes)
    requires Distinct(hosts)
    ensures Distinct(FindIPs(Keep(hosts, macs), mac))
  {
    KeptIsIn(hosts, macs);
    DistinctIPs(Keep(hosts, macs), mac);
  }

  lemma {:induction false} NothingRemoved(networks: map<string, Network>, nics: seq<Nic>)
    requires nics == []
    ensures HostsRemoved(networks, nics) == networks
  {
    forall w | w in networks ensures Keep(networks[w].hosts, MacsOn(nics, w)) == networks[w].hosts {
      KeepAll(networks[w].hosts, MacsOn(nics, w));
    }
  }

  lemma {:induction false} RemovedTwice(networks: map<string, Network>, nics: seq<Nic>)
    ensures HostsRemoved(HostsRemoved(networks, nics), nics) == HostsRemoved(networks, nics)
  {
    forall w | w in networks {
      KeepMore(networks[w].hosts, MacsOn(nics, w), MacsOn(nics, w));
    }
  }

  lemma {:induction false} MacsOnNext(nics: seq<Nic>, i: nat, w: string)
    requires i < |nics|
    ensures w != "" && nics[i].network == w ==> MacsOn(nics[..i + 1], w) == MacsOn(nics[..i], w) + {nics[i].mac}
    ensures w == "" || nics[i].network != w ==> MacsOn(nics[..i + 1], w) == MacsOn(nics[..i], w)
    ensures MacsOn(nics[..i + 1], w) <= MacsOn(nics, w)
  {
    assert nics[..i + 1] == nics[..i] + [nics[i]];
    assert forall nic :: nic in nics[..i + 1] ==> nic in nics;
  }

  /** Stopping before the i-th interface leads to the same end; an interface that is skipped changes nothing. */
  lemma {:induction false} RemovedOnTheWay(networks: map<string, Network>, nics: seq<Nic>, i: nat)
    requires i < |nics|
    ensures HostsRemoved(HostsRemoved(networks, nics[..i]), nics) == HostsRemoved(networks, nics)
    ensures nics[i].network == "" || nics[i].network !in networks ==>
              HostsRemoved(networks, nics[..i + 1]) == HostsRemoved(networks, nics[..i])
  {
    forall w | w in networks ensures MacsOn(nics[..i], w) <= MacsOn(nics, w) {
      MacsOnNext(nics, i, w);
    }
    PartThenAll(networks, nics[..i], nics);
    if nics[i].network == "" || nics[i].network !in networks {
      forall w | w in networks ensures MacsOn(nics[..i + 1], w) == MacsOn(nics[..i], w) {
        MacsOnNext(nics, i, w);
      }
    }
  }

  lemma {:induction false} PartThenAll(networks: map<string, Network>, some: seq<Nic>, all: seq<Nic>)
    requires forall w :: w in networks ==> MacsOn(some, w) <= MacsOn(all, w)
    ensures HostsRemoved(HostsRemoved(networks, some), all) == HostsRemoved(networks, all)
  {
    var part := HostsRemoved(networks, some);
    forall w | w in networks ensures Keep(part[w].hosts, MacsOn(all, w)) == Keep(networks[w].hosts, MacsOn(all, w)) {
      KeepMore(networks[w].hosts, MacsOn(some, w), MacsOn(all, w));
    }
  }

  /** Removing some or all entries of the i-th interface. */
  lemma {:induction false} OneMacRemoved(before: map<string, Network>, networks: map<string, Network>,
                                         networks': map<string, Network>, nics: seq<Nic>, i: nat)
    requires i < |nics| && networks == HostsRemoved(before, nics[..i])
    requires var nic := nics[i];
             && nic.network != "" && nic.network in networks && nic.network in networks'
             && networks' == networks[nic.network := networks[nic.network].(hosts := networks'[nic.network].hosts)]
             && WithoutMac(networks'[nic.network].hosts, nic.mac) == WithoutMac(networks[nic.network].hosts, nic.mac)
    ensures HostsRemoved(networks', nics) == HostsRemoved(before, nics)
    ensures var nic := nics[i];
            networks'[nic.network].hosts == WithoutMac(networks[nic.network].hosts, nic.mac) ==>
              networks' == HostsRemoved(before, nics[..i + 1])
  {
    var v, mac := nics[i].network, nics[i].mac;
    RemovedOnTheWay(before, nics, i);
    MacsOnNext(nics, i, v);
    OneNetworkEqual(networks, networks', nics, v, mac);
    if networks'[v].hosts == WithoutMac(networks[v].hosts, mac) {
      NextMacRemoved(before, networks', nics, i);
    }
  }

  lemma {:induction false} OneNetworkEqual(networks: map<string, Network>, networks': map<string, Network>,
                                           nics: seq<Nic>, v: string, mac: Bytes)
    requires v in networks && v in networks' && networks' == networks[v := networks[v].(hosts := networks'[v].hosts)]
    requires mac in MacsOn(nics, v) && WithoutMac(networks'[v].hosts, mac) == WithoutMac(networks[v].hosts, mac)
    ensures HostsRemoved(networks', nics) == HostsRemoved(networks, nics)
  {
    KeepIgnores(networks[v].hosts, networks'[v].hosts, mac, MacsOn(nics, v));
    forall w | w in networks
      ensures HostsRemoved(networks', nics)[w] == HostsRemoved(networks, nics)[w]
    {
      assert w != v ==> networks'[w] == networks[w];
    }
  }

  lemma {:induction false} NextMacRemoved(before: map<string, Network>, networks': map<string, Network>,
                                          nics: seq<Nic>, i: nat)
    requires i < |nics| && nics[i].network != "" && nics[i].network in before
    requires var v, networks := nics[i].network, HostsRemoved(before, nics[..i]);
             networks' == networks[v := networks[v].(hosts := WithoutMac(networks[v].hosts, nics[i].mac))]
    ensures networks' == HostsRemoved(before, nics[..i + 1])
  {
    var v, mac := nics[i].network, nics[i].mac;
    var next := HostsRemoved(before, nics[..i + 1]);
    forall w | w in before ensures networks'[w] == next[w] {
      MacsOnNext(nics, i, w);
      if w == v {
        KeepOneMore(before[v].hosts, MacsOn(nics[..i], v), mac);
      }
    }
  }

  lemma {:induction false} KeepIsFewer(hosts: seq<Host>, macs: set<Bytes>)
    ensures Fewer(hosts, Keep(hosts, macs))
  {
    if hosts != [] {
      KeepIsFewer(hosts[1..], macs);
      assert hosts == [hosts[0]] + hosts[1..];
    }
  }

  lemma {:induction false} RemovedIsFewer(s: State, name: string, removeDHCP: bool, removeBoot: bool)
    ensures FewerEntries(s.networks, Remove(s, name, removeDHCP, removeBoot).0.networks)
  {
    if name in s.domains && removeDHCP {
      forall w | w in s.networks {
        KeepIsFewer(s.networks[w].hosts, MacsOn(s.domains[name].nics, w));
      }
    }
  }

  // ---------------------------------------------------------------- snapshots

  method RemoveSnapshots(c: Connection, name: string) returns (r: Outcome<Error>)
    requires name in c.domains && LiveDomains(c.domains)
    modifies c`domains, c`faults
    ensures c.faults >= old(c.faults)
    ensures r.Pass? <==> c.faults == old(c.faults)
    ensures name in c.domains
            && c.domains == old(c.domains)[name := old(c.domains)[name].(snapshots := c.domains[name].snapshots)]
    ensures Lessened(old(c.domains)[name], c.domains[name])
    ensures r.Pass? ==> c.domains[name].snapshots == []
  {
    var desc := c.DescribeDomain(name);
    if desc.Failure? {
      return Fail(desc.error);
    }
    var snapshots := desc.value.snapshots;
    for i := 0 to |snapshots|
      invariant c.faults == old(c.faults)
      invariant name in c.domains && c.domains[name].snapshots == snapshots[i..]
      invariant c.domains == old(c.domains)[name := old(c.domains)[name].(snapshots := c.domains[name].snapshots)]
    {
      r := c.DeleteFirstSnapshot(name);
      if r.Fail? {
        return;
      }
    }
    return Pass;
  }

  // ---------------------------------------------------------------- disks

  method RmVolume(c: Connection, disk: Name) returns (r: Outcome<Error>)
    modifies c`vols, c`faults, c`deleteFaults
    ensures c.faults >= old(c.faults) && c.deleteFaults >= old(c.deleteFaults)
    ensures c.faults == old(c.faults) ==>
              if disk in old(c.vols)
              then c.vols == Collect(old(c.vols), disk).pool && r == Collect(old(c.vols), disk).outcome
              else c.vols == old(c.vols) && r == Pass
    ensures c.faults != old(c.faults) ==> r.Fail?
    ensures c.faults == old(c.faults) ==> c.deleteFaults == old(c.deleteFaults)
    ensures exists k: nat :: c.vols == CollectUpTo(old(c.vols), disk, k)
  {
    assert CollectUpTo(c.vols, disk, 0) == c.vols;
    var layer := FindRawLayer(c, disk);
    if layer.Failure? {
      return Fail(layer.error);
    }
    if !layer.value {
      return Pass;
    }
    var count, o := DeleteAllIfUnused(c, disk);
    return o;
  }

  /** What deleting some of a machine's disks, and some of what they alone kept, amounts to. */
  ghost predicate DisksGoing(p: Pool, p': Pool, roots: set<Name>) {
    && Sound(p') && Submap(p', p)
    && Sweep(p' - roots) == Sweep(p - roots)
    && (forall n :: n in p && !n.Layer? && n !in roots ==> n in p')
  }

  /** Where the loop over the disks stands before the i-th one. */
  ghost predicate Deleting(p0: Pool, p: Pool, disks: seq<Name>, keep: Option<Name>, roots: set<Name>, i: nat)
    requires i <= |disks|
  {
    && RemoveDisks(p0, disks, keep) == RemoveDisks(p, disks[i..], keep)
    && DisksGoing(p0, p, roots)
    && forall j :: 0 <= j < i ==> Gone(p, disks[j], keep)
  }

  ghost predicate Gone(p: Pool, n: Name, keep: Option<Name>) {
    !n.Layer? && keep != Some(n) ==> n !in p
  }

  method RmDisks(c: Connection, disks: seq<Name>, keep: Option<Name>, ghost roots: set<Name>)
    returns (r: Outcome<Error>)
    requires Sound(c.vols)
    requires forall n :: n in disks && !n.Layer? && keep != Some(n) ==> n in roots
    modifies c`vols, c`faults, c`deleteFaults
    ensures c.faults >= old(c.faults) && c.deleteFaults >= old(c.deleteFaults)
    ensures c.faults == old(c.faults) ==> (c.vols, r) == RemoveDisks(old(c.vols), disks, keep)
    ensures r.Pass? ==> c.faults == old(c.faults) && c.deleteFaults == old(c.deleteFaults)
    ensures DisksGoing(old(c.vols), c.vols, roots)
    ensures r.Pass? ==> forall n :: n in disks ==> Gone(c.vols, n, keep)
  {
    for i := 0 to |disks|
      invariant c.faults == old(c.faults) && c.deleteFaults == old(c.deleteFaults)
      invariant Deleting(old(c.vols), c.vols, disks, keep, roots, i)
    {
      if keep == Some(disks[i]) {
        SkipDisk(old(c.vols), c.vols, disks, keep, roots, i);
        continue;
      }
      ghost var p := c.vols;
      r := RmVolume(c, disks[i]);
      OneDiskGoing(old(c.vols), p, c.vols, disks[i], roots);
      if r.Fail? {
        DeleteLastDisk(old(c.vols), p, disks, keep, roots, i);
        return;
      }
      DeleteDisk(old(c.vols), p, disks, keep, roots, i);
    }
    return Pass;
  }

  lemma {:induction false} SkipDisk(p0: Pool, p: Pool, disks: seq<Name>, keep: Option<Name>, roots: set<Name>, i: nat)
    requires i < |disks| && Deleting(p0, p, disks, keep, roots, i)
    requires keep == Some(disks[i]) || disks[i] !in p
    ensures Deleting(p0, p, disks, keep, roots, i + 1)
  {
    assert disks[i..][0] == disks[i] && disks[i..][1..] == disks[i + 1..];
  }

  lemma {:induction false} DeleteLastDisk(p0: Pool, p: Pool, disks: seq<Name>, keep: Option<Name>, roots: set<Name>,
                                          i: nat)
    requires i < |disks| && Deleting(p0, p, disks, keep, roots, i)
    requires keep != Some(disks[i])
    ensures disks[i] in p && Collect(p, disks[i]).outcome.Fail? ==>
              RemoveDisks(p0, disks, keep) == (Collect(p, disks[i]).pool, Collect(p, disks[i]).outcome)
  {
    assert disks[i..][0] == disks[i] && disks[i..][1..] == disks[i + 1..];
  }

  lemma {:induction false} DeleteDisk(p0: Pool, p: Pool, disks: seq<Name>, keep: Option<Name>, roots: set<Name>, i: nat)
    requires i < |disks| && Deleting(p0, p, disks, keep, roots, i)
    requires keep != Some(disks[i]) && (disks[i].Layer? || disks[i] in roots)
    ensures if disks[i] !in p then Deleting(p0, p, disks, keep, roots, i + 1)
            else Collect(p, disks[i]).outcome.Pass? ==>
                   Deleting(p0, Collect(p, disks[i]).pool, disks, keep, roots, i + 1)
  {
    assert disks[i..][0] == disks[i] && disks[i..][1..] == disks[i + 1..];
    if disks[i] in p {
      var p' := Collect(p, disks[i]).pool;
      CollectIsUpTo(p, disks[i], Collect(p, disks[i]).count);
      OneDiskGoing(p0, p, p', disks[i], roots);
      CollectCounts(p, disks[i]);
      forall j | 0 <= j < i ensures Gone(p', disks[j], keep) {
        assert Gone(p, disks[j], keep);
      }
    }
  }

  lemma {:induction false} RemoveDisksShrinks(p: Pool, disks: seq<Name>, keep: Option<Name>)
    ensures Submap(RemoveDisks(p, disks, keep).0, p)
    decreases |disks|
  {
    if disks != [] {
      if keep == Some(disks[0]) || disks[0] !in p {
        RemoveDisksShrinks(p, disks[1..], keep);
      } else {
        CollectCounts(p, disks[0]);
        RemoveDisksShrinks(Collect(p, disks[0]).pool, disks[1..], keep);
      }
    }
  }

  lemma {:induction false} OneDiskGoing(p0: Pool, p: Pool, p': Pool, disk: Name, roots: set<Name>)
    requires DisksGoing(p0, p, roots) && (disk.Layer? || disk in roots)
    requires exists k: nat :: p' == CollectUpTo(p, disk, k)
    ensures DisksGoing(p0, p', roots)
    ensures disk in p && p' == Collect(p, disk).pool && Collect(p, disk).outcome.Pass? && !disk.Layer? ==> disk !in p'
  {
    var k: nat :| p' == CollectUpTo(p, disk, k);
    InterruptedCollect(p, disk, k);
    if disk.Layer? {
      SweepDrop(p, p', roots);
    } else {
      SweepDrop(p - {disk}, p' - {disk}, roots);
      assert p - {disk} - roots == p - roots && p' - {disk} - roots == p' - roots;
      CollectSucceeds(p, disk);
    }
  }

  // ---------------------------------------------------------------- the whole removal

  /** Part of the machine's resources are gone, the domain is still there to tell what the rest is. */
  ghost predicate OnTheWay(s: State, s': State, name: string, removeDHCP: bool, removeBoot: bool) {
    && name in s.domains && name in s'.domains
    && var d, d' := s.domains[name], s'.domains[name];
       && Lessened(d, d')
       && s'.domains == s.domains[name := d']
       && DisksGoing(s.vols, s'.vols, Doomed(d, name, removeBoot))
       && FewerEntries(s.networks, s'.networks)
       && (if removeDHCP then HostsRemoved(s'.networks, d.nics) == HostsRemoved(s.networks, d.nics)
           else s'.networks == s.networks)
  }

  lemma {:induction false} OnTheWayIsAttempt(s: State, s': State, name: string, removeDHCP: bool, removeBoot: bool)
    requires LiveDomains(s.domains) && OnTheWay(s, s', name, removeDHCP, removeBoot)
    ensures Attempt(s, s', name, removeDHCP, removeBoot, false)
  {
    assert s'.domains - {name} == s.domains - {name};
  }

  lemma {:induction false} FinishedIsAttempt(s: State, s': State, name: string, removeDHCP: bool, removeBoot: bool)
    requires LiveDomains(s.domains) && OnTheWay(s, s', name, removeDHCP, removeBoot)
    requires Doomed(s.domains[name], name, removeBoot) !! s'.vols.Keys
    requires removeDHCP ==> s'.networks == HostsRemoved(s.networks, s.domains[name].nics)
    ensures Attempt(s, s'.(domains := s.domains - {name}), name, removeDHCP, removeBoot, true)
  {
    assert s'.vols - Doomed(s.domains[name], name, removeBoot) == s'.vols;
  }

  /** Everything up to the volumes; the domain stays. */
  method Dismantle(c: Connection, name: string, d: Domain, removeDHCP: bool, removeBoot: bool)
    returns (r: Outcome<Error>)
    requires Sound(c.vols) && LiveDomains(c.domains) && name in c.domains && c.domains[name] == d
    modifies c`vols, c`domains, c`networks, c`faults, c`deleteFaults
    ensures c.faults >= old(c.faults) && c.deleteFaults >= old(c.deleteFaults)
    ensures r.Pass? ==> c.faults == old(c.faults) && c.deleteFaults == old(c.deleteFaults)
    ensures OnTheWay(old(c.Now()), c.Now(), name, removeDHCP, removeBoot)
    ensures r.Pass? ==> Doomed(d, name, removeBoot) !! c.vols.Keys
    ensures r.Pass? ==> c.domains[name] == d.(snapshots := [], active := d.active && !d.persistent)
    ensures r.Pass? && removeDHCP ==> c.networks == HostsRemoved(old(c.networks), d.nics)
    ensures r.Pass? ==> (c.vols, r) == RemoveDisks(old(c.vols), d.disks, Kept(name, removeBoot))
    ensures c.faults == old(c.faults) && NoRepeats(old(c.networks)) ==>
              && c.domains == old(c.domains)[name := d.(snapshots := [], active := d.active && !d.persistent)]
              && c.networks == (if removeDHCP then HostsRemoved(old(c.networks), d.nics) else old(c.networks))
              && (c.vols, r) == RemoveDisks(old(c.vols), d.disks, Kept(name, removeBoot))
  {
    r := StopAndClean(c, name, d, removeDHCP);
    if r.Fail? {
      return;
    }
    var desc := c.DescribeDomain(name);
    if desc.Failure? {
      return Fail(desc.error);
    }
    r := RmDisks(c, desc.value.disks, Kept(name, removeBoot), Doomed(d, name, removeBoot));
    if r.Pass? {
      forall n | n in Doomed(d, name, removeBoot) ensures n !in c.vols {
        assert Gone(c.vols, n, Kept(name, removeBoot));
      }
    }
  }

  /** The domain is stopped first, if it does not go with that, then loses its entries and snapshots. */
  method StopAndClean(c: Connection, name: string, d: Domain, removeDHCP: bool) returns (r: Outcome<Error>)
    requires LiveDomains(c.domains) && name in c.domains && c.domains[name] == d
    modifies c`domains, c`networks, c`faults
    ensures c.faults >= old(c.faults)
    ensures r.Pass? ==> c.faults == old(c.faults)
    ensures name in c.domains && c.domains == old(c.domains)[name := c.domains[name]]
    ensures Lessened(d, c.domains[name])
    ensures FewerEntries(old(c.networks), c.networks)
    ensures if removeDHCP then HostsRemoved(c.networks, d.nics) == HostsRemoved(old(c.networks), d.nics)
            else c.networks == old(c.networks)
    ensures r.Pass? ==> c.domains[name] == d.(snapshots := [], active := d.active && !d.persistent)
    ensures r.Pass? && removeDHCP ==> c.networks == HostsRemoved(old(c.networks), d.nics)
    ensures c.faults == old(c.faults) && NoRepeats(old(c.networks)) ==> r.Pass?
  {
    if d.active && d.persistent {
      r := c.StopDomain(name);
      if r.Fail? {
        return;
      }
    }
    r := RemoveDomainDHCP(c, name, removeDHCP);
    if r.Fail? {
      return;
    }
    r := RemoveSnapshots(c, name);
  }

  /**
   Removes a machine.  Without failing calls the result is Remove's; whatever fails, the attempt
   stays on the way to the same goal and the machine can be asked for what is left of it.
   */
  method VMRm(c: Connection, name: string, removeDHCP: bool, removeBoot: bool) returns (r: Outcome<Error>)
    requires Sound(c.vols) && LiveDomains(c.domains)
    modifies c`vols, c`domains, c`networks, c`faults, c`deleteFaults
    ensures c.faults >= old(c.faults) && c.deleteFaults >= old(c.deleteFaults)
    ensures c.faults == old(c.faults) && NoRepeats(old(c.networks)) ==>
              (c.Now(), r) == Remove(old(c.Now()), name, removeDHCP, removeBoot)
    ensures r.Pass? ==> c.faults == old(c.faults) && c.deleteFaults == old(c.deleteFaults)
                        && (c.Now(), r) == Remove(old(c.Now()), name, removeDHCP, removeBoot)
    ensures Attempt(old(c.Now()), c.Now(), name, removeDHCP, removeBoot, r.Pass?)
  {
    StayingIsAttempt(c.Now(), name, removeDHCP, removeBoot);
    var found := c.DescribeDomain(name);
    if found.Failure? {
      return if found.error == NoDomain then Pass else Fail(found.error);
    }
    var activity := c.DescribeDomain(name);
    if activity.Failure? {
      return Fail(activity.error);
    }
    var persistence := c.DescribeDomain(name);
    if persistence.Failure? {
      return Fail(persistence.error);
    }
    r := RmDefined(c, name, found.value, removeDHCP, removeBoot);
  }

  lemma {:induction false} StayingIsAttempt(s: State, name: string, removeDHCP: bool, removeBoot: bool)
    requires Sound(s.vols) && LiveDomains(s.domains)
    ensures Attempt(s, s, name, removeDHCP, removeBoot, false)
    ensures name !in s.domains ==> Attempt(s, s, name, removeDHCP, removeBoot, true)
  {
  }

  /** The resources, then the domain: its definition if it has one, else its run. */
  method RmDefined(c: Connection, name: string, d: Domain, removeDHCP: bool, removeBoot: bool)
    returns (r: Outcome<Error>)
    requires Sound(c.vols) && LiveDomains(c.domains) && name in c.domains && c.domains[name] == d
    modifies c`vols, c`domains, c`networks, c`faults, c`deleteFaults
    ensures c.faults >= old(c.faults) && c.deleteFaults >= old(c.deleteFaults)
    ensures c.faults == old(c.faults) && NoRepeats(old(c.networks)) ==>
              (c.Now(), r) == Remove(old(c.Now()), name, removeDHCP, removeBoot)
    ensures r.Pass? ==> c.faults == old(c.faults) && c.deleteFaults == old(c.deleteFaults)
                        && (c.Now(), r) == Remove(old(c.Now()), name, removeDHCP, removeBoot)
    ensures Attempt(old(c.Now()), c.Now(), name, removeDHCP, removeBoot, r.Pass?)
  {
    ghost var s := c.Now();
    r := Dismantle(c, name, d, removeDHCP, removeBoot);
    OnTheWayIsAttempt(s, c.Now(), name, removeDHCP, removeBoot);
    if r.Fail? {
      return;
    }
    FinishedIsAttempt(s, c.Now(), name, removeDHCP, removeBoot);
    if d.persistent {
      r := c.UndefineDomain(name);
    } else if d.active {
      r := c.StopDomain(name);
    }
    assert r.Pass? ==> c.domains == s.domains - {name};
  }

  // ---------------------------------------------------------------- interrupted removals

  /** Attempt after attempt, the last one successful. */
  ghost predicate Attempts(trace: seq<State>, name: string, removeDHCP: bool, removeBoot: bool) {
    && |trace| >= 2
    && (forall i, j :: 0 <= i && j == i + 1 && j < |trace| - 1 ==>
          Attempt(trace[i], trace[j], name, removeDHCP, removeBoot, false))
    && Attempt(trace[|trace| - 2], trace[|trace| - 1], name, removeDHCP, removeBoot, true)
  }

  lemma {:induction false} AttemptsKeepGoal(trace: seq<State>, name: string, removeDHCP: bool, removeBoot: bool, k: nat)
    requires Attempts(trace, name, removeDHCP, removeBoot) && k < |trace|
    ensures Goal(trace[k], name, removeDHCP, removeBoot) == Goal(trace[0], name, removeDHCP, removeBoot)
    decreases k
  {
    if k > 0 {
      AttemptsKeepGoal(trace, name, removeDHCP, removeBoot, k - 1);
      if k < |trace| - 1 {
        assert Attempt(trace[k - 1], trace[k], name, removeDHCP, removeBoot, false);
      }
    }
  }

  /**
   A removal that failed any number of times, at any steps, and was repeated until it succeeded
   ends like one that succeeded at once, except for layers no longer in use; pruning makes the two equal.
   */
  lemma {:induction false} RetriesConverge(trace: seq<State>, direct: State, name: string, removeDHCP: bool,
                                           removeBoot: bool)
    requires Attempts(trace, name, removeDHCP, removeBoot)
    requires Attempt(trace[0], direct, name, removeDHCP, removeBoot, true)
    ensures var last := trace[|trace| - 1];
            && last.domains == direct.domains && last.networks == direct.networks
            && Sweep(last.vols) == Sweep(direct.vols)
            && forall n: Name :: !n.Layer? ==> (n in last.vols <==> n in direct.vols)
  {
    var last := trace[|trace| - 1];
    AttemptsKeepGoal(trace, name, removeDHCP, removeBoot, |trace| - 1);
    forall n: Name | !n.Layer? ensures n in last.vols <==> n in direct.vols {
      RootsAreSwept(last.vols, n);
      RootsAreSwept(direct.vols, n);
    }
  }

  /** What a successful removal leads to, by itself: domain, entries and volumes gone, the rest kept. */
  lemma {:induction false} RemovalIsComplete(s: State, s': State, name: string, removeDHCP: bool, removeBoot: bool)
    requires name in s.domains && Attempt(s, s', name, removeDHCP, removeBoot, true)
    ensures var d := s.domains[name];
            && s'.domains == s.domains - {name}
            && Sweep(s'.vols) == Sweep(s.vols - Doomed(d, name, removeBoot))
            && (forall n: Name :: !n.Layer? ==> (n in s'.vols <==> n in s.vols && n !in Doomed(d, name, removeBoot)))
            && s'.networks.Keys == s.networks.Keys
            && (!removeDHCP ==> s'.networks == s.networks)
            && (removeDHCP ==> forall w :: w in s.networks ==> LosesEntries(s.networks[w], s'.networks[w], d.nics, w))
  {
    var d := s.domains[name];
    forall n: Name | !n.Layer? ensures n in s'.vols <==> n in s.vols && n !in Doomed(d, name, removeBoot) {
      RootsAreSwept(s'.vols, n);
      RootsAreSwept(s.vols - Doomed(d, name, removeBoot), n);
    }
    if removeDHCP {
      forall w | w in s.networks ensures LosesEntries(s.networks[w], s'.networks[w], d.nics, w) {
        KeptIsIn(s.networks[w].hosts, MacsOn(d.nics, w));
      }
    }
  }

  /** Whether it succeeds or not, a removal in which no call fails has dealt with the entries. */
  lemma {:induction false} RemoveDropsEntries(s: State, name: string, removeDHCP: bool, removeBoot: bool)
    ensures var networks := Remove(s, name, removeDHCP, removeBoot).0.networks;
            && networks.Keys == s.networks.Keys
            && (name !in s.domains || !removeDHCP ==> networks == s.networks)
            && (name in s.domains && removeDHCP ==>
                  forall w :: w in s.networks ==> LosesEntries(s.networks[w], networks[w], s.domains[name].nics, w))
  {
    if name in s.domains {
      forall w | w in s.networks {
        KeptIsIn(s.networks[w].hosts, MacsOn(s.domains[name].nics, w));
      }
    }
  }

  /** The network loses the entries for the interfaces that are on it, and nothing else. */
  ghost predicate LosesEntries(net: Network, net': Network, nics: seq<Nic>, w: string) {
    && net'.ipNet == net.ipNet
    && forall h :: h in net'.hosts <==> h in net.hosts && !(w != "" && Nic(h.mac, w) in nics)
  }

  /** Deleting the volume does not stop at what it is backed by. */
  predicate Readable(p: Pool, n: Name) {
    n in p ==> Dependency(p, n).Success?
  }

  ghost predicate AllReadable(p: Pool, disks: seq<Name>, keep: Option<Name>) {
    forall n :: n in disks && keep != Some(n) ==> Readable(p, n)
  }

  /** Deleting disks goes through exactly if each of them is missing or can be read; then they are gone. */
  lemma {:induction false} RemoveDisksExactly(p: Pool, disks: seq<Name>, keep: Option<Name>)
    requires Sound(p)
    ensures RemoveDisks(p, disks, keep).1.Pass? <==> AllReadable(p, disks, keep)
    ensures RemoveDisks(p, disks, keep).1.Pass? ==>
              forall n :: n in disks ==> Gone(RemoveDisks(p, disks, keep).0, n, keep)
    decreases |disks|
  {
    if disks != [] {
      var n, rest := disks[0], disks[1..];
      if keep == Some(n) || n !in p {
        RemoveDisksExactly(p, rest, keep);
        RemoveDisksShrinks(p, rest, keep);
        FirstOfDisks(p, disks, keep);
      } else {
        CollectSucceeds(p, n);
        FirstOfDisks(p, disks, keep);
        if Dependency(p, n).Success? {
          FirstDiskRemoved(p, disks, keep);
        }
      }
    }
  }

  lemma {:induction false} FirstOfDisks(p: Pool, disks: seq<Name>, keep: Option<Name>)
    requires disks != []
    ensures AllReadable(p, disks, keep)
            <==> (keep != Some(disks[0]) ==> Readable(p, disks[0])) && AllReadable(p, disks[1..], keep)
  {
    assert forall n :: n in disks <==> n == disks[0] || n in disks[1..];
  }

  lemma {:induction false} FirstDiskRemoved(p: Pool, disks: seq<Name>, keep: Option<Name>)
    requires Sound(p) && disks != [] && keep != Some(disks[0]) && Dependency(p, disks[0]).Success?
    ensures RemoveDisks(p, disks, keep).1.Pass? <==> AllReadable(p, disks[1..], keep)
    ensures RemoveDisks(p, disks, keep).1.Pass? ==>
              forall n :: n in disks ==> Gone(RemoveDisks(p, disks, keep).0, n, keep)
    decreases |disks|, 0
  {
    var n, rest := disks[0], disks[1..];
    var p1 := Collect(p, n).pool;
    CollectSound(p, n);
    CollectSucceeds(p, n);
    RemoveDisksExactly(p1, rest, keep);
    RemoveDisksShrinks(p1, rest, keep);
    StillReadable(p, p1, n);
    if !n.Layer? {
      CollectDropsRoot(p, n);
    }
  }

  /** What a collection leaves can be read exactly if it could before. */
  lemma {:induction false} StillReadable(p: Pool, p': Pool, n: Name)
    requires Sound(p) && Dependency(p, n).Success? && p' == Collect(p, n).pool
    ensures forall x :: Readable(p', x) <==> Readable(p, x)
  {
    CollectSound(p, n);
    forall x ensures Readable(p', x) <==> Readable(p, x) {
      if x in p {
        assert BackingPresent(p, x);
      }
    }
  }

  /**
   Where no call fails a removal succeeds exactly if no disk it deletes is a foreign one on a foreign
   backing; otherwise the domain is still defined, but stopped, and without snapshots.
   */
  lemma {:induction false} RemoveSucceedsExactly(s: State, name: string, removeDHCP: bool, removeBoot: bool)
    requires Sound(s.vols)
    ensures Remove(s, name, removeDHCP, removeBoot).1.Pass?
            <==> name in s.domains ==> AllReadable(s.vols, s.domains[name].disks, Kept(name, removeBoot))
    ensures Remove(s, name, removeDHCP, removeBoot).1.Fail? ==>
              var domains := Remove(s, name, removeDHCP, removeBoot).0.domains;
              && name in s.domains && domains.Keys == s.domains.Keys
              && (forall d :: d in s.domains && d != name ==> domains[d] == s.domains[d])
              && domains[name].disks == s.domains[name].disks && domains[name].nics == s.domains[name].nics
              && domains[name].persistent == s.domains[name].persistent
              && domains[name].snapshots == [] && (domains[name].persistent ==> !domains[name].active)
  {
    if name in s.domains {
      RemoveDisksExactly(s.vols, s.domains[name].disks, Kept(name, removeBoot));
    }
  }
}

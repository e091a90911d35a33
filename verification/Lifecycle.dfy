/** Starting and removing a machine undo each other. */
module Lifecycle {
  import opened Errors
  import opened Wrappers
  import opened Volumes
  import opened Collector
  import opened Addresses
  import opened Libvirt
  import opened Dhcp
  import opened Removal
  import opened Machines
  import opened Commit

  // ---------------------------------------------------------------- disks

  /** Volumes without a backing just disappear. */
  lemma {:induction false} RemovePlain(base: Pool, extra: Pool, disks: seq<Name>)
    requires extra.Keys !! base.Keys
    requires forall n :: n in extra ==> n in disks && !n.Layer? && extra[n].backing == None
    requires forall n :: n in disks ==> n !in base
    ensures RemoveDisks(base + extra, disks, None) == (base, Pass)
    decreases |disks|
  {
    if disks == [] {
      assert base + extra == base;
    } else {
      var n := disks[0];
      if n in extra {
        assert Collect(base + extra, n) == Collected((base + extra) - {n}, 1, Pass) by {
          assert Dependency(base + extra, n) == Success(None);
          assert !Referenced(base + extra, n);
        }
        assert (base + extra) - {n} == base + (extra - {n});
        RemovePlain(base, extra - {n}, disks[1..]);
      } else {
        RemovePlain(base, extra, disks[1..]);
      }
    }
  }

  /** A volume whose layer something else stands on goes alone. */
  lemma {:induction false} CollectAlone(p: Pool, n: Name)
    requires n in p && !n.Layer? && Dependency(p, n).Success?
    requires Dependency(p, n).value.Some? ==>
               var t := Dependency(p, n).value.value; Referenced(p - {n}, t) && Dependency(p - {n}, t).Success?
    ensures Collect(p, n) == Collected(p - {n}, 1, Pass)
  {
  }

  /** Something other than the new machine keeps the image's top layer. */
  ghost predicate TopHeld(s: State, cfg: VMConfig, p: Progress)
    requires p.Defined?
  {
    p.m == 0 || cfg.top.None? || Referenced(s.vols, cfg.top.value)
  }

  /**
   Removing the machine's disks takes away what the start created, and nothing else exactly if
   something else holds the image's top layer.
   */
  lemma {:induction false} DisksRestored(s: State, cfg: VMConfig, p: Progress, names: seq<Name>)
    requires Sound(s.vols) && p.Defined? && |names| > 0 && p.m <= |names| && Distinct(names[..p.m])
    requires cfg.top.Some? ==> cfg.top.value.Layer?
    requires p.m > 0 && cfg.top.Some? ==> cfg.top.value in s.vols
    requires forall i :: 0 <= i < |names| ==> names[i] !in s.vols && names[i].Work?
    ensures RemoveDisks(s.vols + Created(names, cfg.top, p.data, p.m), names, None) == (s.vols, Pass)
            <==> TopHeld(s, cfg, p)
  {
    var extra := Created(names, cfg.top, p.data, p.m);
    CreatedKeys(names, cfg.top, p.data, p.m);
    if p.m == 0 || cfg.top.None? {
      RemovePlain(s.vols, extra, names);
    } else {
      CreatedBoot(names, cfg.top, p.data, p.m);
      var top := cfg.top.value;
      if Referenced(s.vols, top) {
        HeldTopStays(s.vols, extra, names, top);
      } else {
        UnheldTopGoes(s.vols, extra, names, top);
      }
    }
  }

  /** The new volumes of a machine, the first of them backed by `top`. */
  ghost predicate BootOn(base: Pool, extra: Pool, names: seq<Name>, top: Name) {
    && Sound(base) && |names| > 0 && top.Layer? && top in base
    && (forall i :: 0 <= i < |names| ==> names[i] !in base && names[i].Work?)
    && (forall n :: n in extra ==> n in names)
    && names[0] in extra && extra[names[0]].backing == Some(top)
    && (forall n :: n in extra && n != names[0] ==> extra[n].backing == None)
  }

  lemma {:induction false} HeldTopStays(base: Pool, extra: Pool, names: seq<Name>, top: Name)
    requires BootOn(base, extra, names, top) && Referenced(base, top)
    ensures RemoveDisks(base + extra, names, None) == (base, Pass)
  {
    var boot, p, rest := names[0], base + extra, extra - {names[0]};
    assert p - {boot} == base + rest;
    var child :| child in base && DependsOn(base, child, top);
    assert DependsOn(base + rest, child, top);
    assert BackingPresent(base, top);
    CollectAlone(p, boot);
    RemovePlain(base, rest, names[1..]);
  }

  lemma {:induction false} UnheldTopGoes(base: Pool, extra: Pool, names: seq<Name>, top: Name)
    requires BootOn(base, extra, names, top) && !Referenced(base, top)
    ensures RemoveDisks(base + extra, names, None) != (base, Pass)
  {
    var boot, p := names[0], base + extra;
    var p1 := p - {boot};
    assert BackingPresent(base, top);
    forall child | child in p1 ensures !DependsOn(p1, child, top) {
      assert child in base ==> !DependsOn(base, child, top);
    }
    assert !Referenced(p1, top);
    CollectRootAndTop(p, boot, top);
    var r := Collect(p, boot);
    if r.outcome.Pass? {
      RemoveDisksShrinks(r.pool, names[1..], None);
    }
  }

  lemma {:induction false} CollectRootAndTop(p: Pool, n: Name, top: Name)
    requires !n.Layer? && Dependency(p, n) == Success(Some(top))
    requires Dependency(p - {n}, top).Success? && !Referenced(p - {n}, top)
    ensures top !in Collect(p, n).pool
  {
    var p1 := p - {n};
    if Dependency(p1, top).value.Some? {
      CollectCounts(p1 - {top}, Dependency(p1, top).value.value);
    }
  }

  // ---------------------------------------------------------------- host entries

  /** No network has an entry yet for any of the machine's interfaces. */
  ghost predicate NoEntries(networks: map<string, Network>, nics: seq<Nic>) {
    forall w :: w in networks ==> NoEntryOn(networks[w].hosts, nics, w)
  }

  ghost predicate NoEntryOn(hosts: seq<Host>, nics: seq<Nic>, w: string) {
    forall h :: h in hosts ==> h.mac !in MacsOn(nics, w)
  }

  lemma {:induction false} KeepAppend(hosts: seq<Host>, h: Host, macs: set<Bytes>)
    requires h.mac in macs
    ensures Keep(hosts + [h], macs) == Keep(hosts, macs)
  {
    if hosts != [] {
      KeepAppend(hosts[1..], h, macs);
      assert (hosts + [h])[1..] == hosts[1..] + [h];
    } else {
      assert (hosts + [h])[1..] == [];
    }
  }

  lemma {:induction false} KeepChanges(hosts: seq<Host>, macs: set<Bytes>)
    ensures Keep(hosts, macs) == hosts <==> forall h :: h in hosts ==> h.mac !in macs
  {
    KeptIsIn(hosts, macs);
    if forall h :: h in hosts ==> h.mac !in macs {
      KeepAll(hosts, macs);
    }
  }

  /** Removing the entries of a machine's interfaces undoes the one that its start made. */
  lemma {:induction false} EntriesRestored(networks: map<string, Network>, w: string, nics: seq<Nic>, h: Host,
                                           hosted: bool)
    requires w != "" && w in networks && |nics| > 0 && nics[0] == Nic(h.mac, w)
    ensures var after := if hosted then networks[w := networks[w].(hosts := networks[w].hosts + [h])] else networks;
            HostsRemoved(after, nics) == networks <==> NoEntries(networks, nics)
  {
    var after := if hosted then networks[w := networks[w].(hosts := networks[w].hosts + [h])] else networks;
    assert h.mac in MacsOn(nics, w) by {
      assert nics[0] in nics;
    }
    KeepAppend(networks[w].hosts, h, MacsOn(nics, w));
    forall v | v in networks
      ensures HostsRemoved(after, nics)[v] == networks[v] <==> NoEntryOn(networks[v].hosts, nics, v)
    {
      KeepChanges(networks[v].hosts, MacsOn(nics, v));
    }
  }

  // ---------------------------------------------------------------- start, then remove

  /**
   However far a start got after it defined the domain, removing the machine restores the state
   before it exactly, if and only if something else holds the image's top layer and no interface
   had a host entry before (with static entries, which stay, that does not matter).
   */
  lemma {:induction false} RemoveUndoesRun(s: State, w: string, cfg: VMConfig, p: Progress)
    requires Sound(s.vols) && w != "" && (cfg.top.Some? ==> cfg.top.value.Layer?)
    requires p.Defined? && RunChecks(s, w, cfg, p.id) && InOrder(s, w, cfg, p)
    ensures Remove(RunState(s, w, cfg, p), cfg.name, !cfg.staticDhcp, true) == (s, Pass)
            <==> TopHeld(s, cfg, p) && (cfg.staticDhcp || NoEntries(s.networks, Nics(cfg, w, p.id)))
  {
    var s1 := RunState(s, w, cfg, p);
    var names, nics := VolumeNames(cfg), Nics(cfg, w, p.id);
    RemoveByParts(s, s1, cfg.name, Domain(true, p.active, nics, names, []), !cfg.staticDhcp);
    DisksRestored(s, cfg, p, names);
    if !cfg.staticDhcp {
      RunEntriesRestored(s, w, cfg, p);
    }
  }

  lemma {:induction false} RemoveByParts(s: State, s1: State, name: string, d: Domain, removeDHCP: bool)
    requires name !in s.domains && s1.domains == s.domains[name := d]
    ensures Remove(s1, name, removeDHCP, true) == (s, Pass) <==>
              && RemoveDisks(s1.vols, d.disks, None) == (s.vols, Pass)
              && (if removeDHCP then HostsRemoved(s1.networks, d.nics) else s1.networks) == s.networks
  {
    assert s1.domains - {name} == s.domains;
  }

  lemma {:induction false} RunEntriesRestored(s: State, w: string, cfg: VMConfig, p: Progress)
    requires w != "" && p.Defined? && RunChecks(s, w, cfg, p.id) && InOrder(s, w, cfg, p)
    ensures HostsRemoved(RunState(s, w, cfg, p).networks, Nics(cfg, w, p.id)) == s.networks
            <==> NoEntries(s.networks, Nics(cfg, w, p.id))
  {
    var mac := QemuMAC(p.id);
    var ip := if p.hosted then PairedIP(s.networks[w].ipNet.value, p.id).value else 0;
    EntriesRestored(s.networks, w, Nics(cfg, w, p.id), Host(mac, ip), p.hosted);
  }

  /** With an identifier of its own choosing the machine's access interface never had an entry. */
  lemma {:induction false} ExplicitIdHasNoEntry(s: State, w: string, cfg: VMConfig, id: UInt)
    requires RunChecks(s, w, cfg, id) && cfg.id != 0 && !cfg.staticDhcp
    ensures id == cfg.id && w in s.networks && forall h :: h in s.networks[w].hosts ==> h.mac != QemuMAC(id)
  {
    FoundIffPresent(s.networks[w].hosts, QemuMAC(id));
  }

  // ---------------------------------------------------------------- the operations themselves

  lemma {:induction false} AppendedDistinct(hosts: seq<Host>, h: Host)
    requires Distinct(hosts) && h !in hosts
    ensures Distinct(hosts + [h])
  {
  }

  /**
   A start that found no entries for its interfaces leaves no network with a repeated entry, so a
   removal can go through.
   */
  lemma {:induction false} RunKeepsNoRepeats(s: State, w: string, cfg: VMConfig, p: Progress)
    requires w != "" && p.Defined? && RunChecks(s, w, cfg, p.id) && InOrder(s, w, cfg, p)
    requires NoRepeats(s.networks) && (cfg.staticDhcp || NoEntries(s.networks, Nics(cfg, w, p.id)))
    ensures NoRepeats(RunState(s, w, cfg, p).networks)
  {
    if p.hosted {
      var mac := QemuMAC(p.id);
      var h := Host(mac, PairedIP(s.networks[w].ipNet.value, p.id).value);
      var hosts := s.networks[w].hosts;
      var nics := Nics(cfg, w, p.id);
      assert nics[0] == Nic(mac, w) && nics[0] in nics;
      assert NoEntryOn(hosts, nics, w);
      AppendedDistinct(hosts, h);
    }
  }

  /** Without the machine's own volumes the pool is the one before the start. */
  lemma {:induction false} RunVolumesGone(s: State, w: string, cfg: VMConfig, p: Progress)
    requires p.Defined? && RunChecks(s, w, cfg, p.id) && InOrder(s, w, cfg, p)
    ensures var s1 := RunState(s, w, cfg, p);
            s1.vols - Doomed(s1.domains[cfg.name], cfg.name, true) == s.vols
  {
    var names := VolumeNames(cfg);
    var s1 := RunState(s, w, cfg, p);
    var doomed := Doomed(s1.domains[cfg.name], cfg.name, true);
    CreatedKeys(names, cfg.top, p.data, p.m);
    assert forall n :: n in doomed <==> n in names;
    AddedAndGone(s.vols, Created(names, cfg.top, p.data, p.m), doomed);
  }

  lemma {:induction false} AddedAndGone(p: Pool, created: Pool, doomed: set<Name>)
    requires created.Keys <= doomed && doomed !! p.Keys
    ensures p + created - doomed == p
  {
    forall n | n in p ensures n !in doomed && n !in created {
    }
  }

  /** A failed attempt and another one are like one attempt. */
  lemma {:induction false} AttemptAgain(s: State, s1: State, s2: State, name: string, removeDHCP: bool,
                                        removeBoot: bool, done: bool)
    requires Attempt(s, s1, name, removeDHCP, removeBoot, false) && Attempt(s1, s2, name, removeDHCP, removeBoot, done)
    ensures Attempt(s, s2, name, removeDHCP, removeBoot, done)
  {
  }

  /** A start that got as far as p, and a removal that went through in the end, come to nothing but garbage. */
  lemma {:induction false} RemovedAfterRun(s: State, w: string, cfg: VMConfig, p: Progress, s': State)
    requires w != "" && p.Defined? && RunChecks(s, w, cfg, p.id) && InOrder(s, w, cfg, p)
    requires cfg.staticDhcp || NoEntries(s.networks, Nics(cfg, w, p.id))
    requires Attempt(RunState(s, w, cfg, p), s', cfg.name, !cfg.staticDhcp, true, true)
    ensures s'.domains == s.domains && s'.networks == s.networks && Sweep(s'.vols) == Sweep(s.vols)
    ensures forall n: Name :: !n.Layer? ==> (n in s'.vols <==> n in s.vols)
  {
    var s1 := RunState(s, w, cfg, p);
    RemovalIsComplete(s1, s', cfg.name, !cfg.staticDhcp, true);
    RunVolumesGone(s, w, cfg, p);
    assert s1.domains - {cfg.name} == s.domains;
    if !cfg.staticDhcp {
      RunEntriesRestored(s, w, cfg, p);
    }
    forall n: Name | !n.Layer? ensures n in s'.vols <==> n in s.vols {
      RootsAreSwept(s'.vols, n);
      RootsAreSwept(s.vols, n);
    }
  }

  /** With no failing call the removal goes through at once, and restores everything if the top layer is held. */
  lemma {:induction false} RemoveGoesThrough(s: State, w: string, cfg: VMConfig, p: Progress)
    requires Sound(s.vols) && w != "" && (cfg.top.Some? ==> cfg.top.value.Layer?)
    requires p.Defined? && RunChecks(s, w, cfg, p.id) && InOrder(s, w, cfg, p)
    requires Sound(RunState(s, w, cfg, p).vols)
    ensures var (s', r) := Remove(RunState(s, w, cfg, p), cfg.name, !cfg.staticDhcp, true);
            && r.Pass?
            && (TopHeld(s, cfg, p) && (cfg.staticDhcp || NoEntries(s.networks, Nics(cfg, w, p.id))) ==> s' == s)
  {
    RemoveDisksPass(RunState(s, w, cfg, p).vols, VolumeNames(cfg), None);
    RemoveUndoesRun(s, w, cfg, p);
  }

  /** The interfaces of the machine had no host entries before; static entries are left alone. */
  ghost predicate NothingToLose(s: State, w: string, cfg: VMConfig, p: Progress)
    requires p.Defined? && QemuFits(p.id)
  {
    cfg.staticDhcp || NoEntries(s.networks, Nics(cfg, w, p.id))
  }

  /**
   What a start that got as far as p and a removal after it, ending in s', come to: once the removal
   has succeeded, domains and entries are what they were and the volumes are but for garbage.  If no
   call of the removal failed, it has succeeded, and all is as before if the top layer is held.
   */
  ghost predicate Undone(s: State, w: string, cfg: VMConfig, p: Progress, s': State, r: Outcome<Error>, clean: bool)
    requires p.Defined?
  {
    && QemuFits(p.id) && RunChecks(s, w, cfg, p.id)
    && (NothingToLose(s, w, cfg, p) ==>
          && (r.Pass? ==> s'.domains == s.domains && s'.networks == s.networks && Sweep(s'.vols) == Sweep(s.vols))
          && (clean && NoRepeats(s.networks) ==> r.Pass? && (TopHeld(s, cfg, p) ==> s' == s)))
  }

  lemma {:induction false} RunRemoved(s: State, w: string, cfg: VMConfig, p: Progress, s': State, r: Outcome<Error>,
                                      clean: bool)
    requires Sound(s.vols) && w != "" && (cfg.top.Some? ==> cfg.top.value.Layer?)
    requires p.Defined? && RunChecks(s, w, cfg, p.id) && InOrder(s, w, cfg, p) && Sound(RunState(s, w, cfg, p).vols)
    requires Attempt(RunState(s, w, cfg, p), s', cfg.name, !cfg.staticDhcp, true, r.Pass?)
    requires var s1 := RunState(s, w, cfg, p);
             clean && NoRepeats(s1.networks) && Remove(s1, cfg.name, !cfg.staticDhcp, true).1.Pass? ==>
               (s', r) == Remove(s1, cfg.name, !cfg.staticDhcp, true)
    ensures Undone(s, w, cfg, p, s', r, clean)
  {
    if NothingToLose(s, w, cfg, p) {
      RemoveGoesThrough(s, w, cfg, p);
      if NoRepeats(s.networks) {
        RunKeepsNoRepeats(s, w, cfg, p);
      }
      if r.Pass? {
        RemovedAfterRun(s, w, cfg, p, s');
      }
    }
  }

  /** A removal, repeated until it succeeds, but not for ever. */
  method RemoveRepeatedly(c: Connection, name: string, removeDHCP: bool, retries: nat) returns (r: Outcome<Error>)
    requires Sound(c.vols) && LiveDomains(c.domains)
    modifies c`vols, c`domains, c`networks, c`faults, c`deleteFaults
    ensures c.faults >= old(c.faults)
    ensures Attempt(old(c.Now()), c.Now(), name, removeDHCP, true, r.Pass?)
    ensures && c.faults == old(c.faults) && NoRepeats(old(c.networks))
            && Remove(old(c.Now()), name, removeDHCP, true).1.Pass? ==>
              (c.Now(), r) == Remove(old(c.Now()), name, removeDHCP, true)
  {
    ghost var s := c.Now();
    r := VMRm(c, name, removeDHCP, true);
    for i := 0 to retries
      invariant c.faults >= old(c.faults)
      invariant Attempt(s, c.Now(), name, removeDHCP, true, r.Pass?)
      invariant c.faults == old(c.faults) && NoRepeats(s.networks) && Remove(s, name, removeDHCP, true).1.Pass? ==>
                  (c.Now(), r) == Remove(s, name, removeDHCP, true)
    {
      if r.Fail? {
        ghost var s1 := c.Now();
        r := VMRm(c, name, removeDHCP, true);
        AttemptAgain(s, s1, c.Now(), name, removeDHCP, true, r.Pass?);
      }
    }
  }

  /**
   Starts a machine, and removes it again, up to 1 + retries times until that succeeds; any call of
   either may fail.  `started` is how many had failed when the start was over.
   */
  method StartAndRemove(c: Connection, cfg: VMConfig, retries: nat)
    returns (r: Outcome<Error>, ghost p: Progress, ghost started: nat)
    requires Sound(c.vols) && LiveDomains(c.domains) && c.accessNetwork != ""
    requires (cfg.top.Some? ==> cfg.top.value.Layer?) && |cfg.disks| < 0x1_0000_0000
    modifies c`vols, c`domains, c`networks, c`faults, c`deleteFaults
    ensures old(c.faults) <= started <= c.faults
    ensures p.Defined? ==> Undone(old(c.Now()), c.accessNetwork, cfg, p, c.Now(), r, c.faults == started)
  {
    ghost var s := c.Now();
    var ran;
    ran, p := VMRun(c, cfg);
    started := c.faults;
    ghost var s1 := c.Now();
    assert LiveDomains(s1.domains);
    r := RemoveRepeatedly(c, cfg.name, !cfg.staticDhcp, retries);
    if p.Defined? {
      RunRemoved(s, c.accessNetwork, cfg, p, c.Now(), r, c.faults == started);
    }
  }
}

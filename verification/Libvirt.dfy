/**
 The libvirt connection: one storage pool, domains and networks, changed in place
 by calls each of which may fail at any time.  `faults` counts the calls that did;
 `deleteFaults` counts the failed volume deletions among them.
 */
module Libvirt {
  import opened Errors
  import opened Wrappers
  import opened Volumes

  datatype Nic = Nic(mac: Bytes, network: string)

  datatype Domain = Domain(persistent: bool, active: bool, nics: seq<Nic>, disks: seq<Name>, snapshots: seq<string>)

  datatype Host = Host(mac: Bytes, ip: nat)

  type HostBits = x: int | 0 <= x <= 32

  /** The IPv4 address of the host interface and the number of host bits of its netmask. */
  datatype IPNet = IPNet(address: nat, hostBits: HostBits)

  datatype Network = Network(ipNet: Option<IPNet>, hosts: seq<Host>)

  datatype State = State(vols: Pool, domains: map<string, Domain>, networks: map<string, Network>)

  /** Occurrences of one host entry. */
  function Occurrences(hosts: seq<Host>, h: Host): nat {
    if hosts == [] then 0 else (if hosts[0] == h then 1 else 0) + Occurrences(hosts[1..], h)
  }

  function Without(hosts: seq<Host>, h: Host): seq<Host> {
    if hosts == [] then []
    else if hosts[0] == h then Without(hosts[1..], h)
    else [hosts[0]] + Without(hosts[1..], h)
  }

  ghost predicate Distinct<T>(s: seq<T>) {
    forall i, j :: 0 <= i < j < |s| ==> s[i] != s[j]
  }

  /** A domain that is neither persistent nor active ceases to exist. */
  function SetDomain(domains: map<string, Domain>, name: string, d: Domain): map<string, Domain> {
    if d.persistent || d.active then domains[name := d] else domains - {name}
  }

  function Rest(names: seq<string>): seq<string> {
    if names == [] then [] else names[1..]
  }

  /** The addresses entered for a MAC, in order. */
  function FindIPs(hosts: seq<Host>, mac: Bytes): seq<nat> {
    if hosts == [] then []
    else if hosts[0].mac == mac then [hosts[0].ip] + FindIPs(hosts[1..], mac)
    else FindIPs(hosts[1..], mac)
  }

  class Connection {
    var vols: Pool
    var domains: map<string, Domain>
    var networks: map<string, Network>
    ghost var faults: nat
    ghost var deleteFaults: nat
    const accessNetwork: string
    const digest: Vol -> Hash

    constructor (accessNetwork: string, digest: Vol -> Hash)
      ensures vols == map[] && domains == map[] && networks == map[]
      ensures faults == 0 && deleteFaults == 0
      ensures this.accessNetwork == accessNetwork && this.digest == digest
    {
      vols, domains, networks := map[], map[], map[];
      faults, deleteFaults := 0, 0;
      this.accessNetwork, this.digest := accessNetwork, digest;
    }

    ghost function Now(): State
      reads this
    {
      State(vols, domains, networks)
    }

    /** One remote call: it goes through or it does not. */
    method Call() returns (ok: bool)
      modifies this`faults
      ensures faults == if ok then old(faults) else old(faults) + 1
    {
      ok := *;
      if !ok {
        faults := faults + 1;
      }
    }

    // -------------------------------------------------------------- volumes

    method ListVolumes() returns (r: Result<seq<Name>, Error>)
      modifies this`faults
      ensures r.Success? ==> faults == old(faults) && forall n :: n in r.value <==> n in vols
      ensures r.Success? ==> Distinct(r.value)
      ensures r.Failure? ==> r.error == LibvirtFailure && faults == old(faults) + 1
    {
      var ok := Call();
      if !ok {
        return Failure(LibvirtFailure);
      }
      var names, rest := [], vols.Keys;
      while rest != {}
        invariant rest <= vols.Keys
        invariant forall n :: n in vols <==> n in names || n in rest
        invariant Distinct(names) && forall n :: n in names ==> n !in rest
        decreases rest
      {
        var n :| n in rest;
        names, rest := names + [n], rest - {n};
      }
      return Success(names);
    }

    method LookupVolume(n: Name) returns (r: Outcome<Error>)
      modifies this`faults
      ensures r.Pass? ==> faults == old(faults) && n in vols
      ensures r.Fail? && faults == old(faults) ==> r.error == NoStorageVol && n !in vols
      ensures r.Fail? && faults != old(faults) ==> r.error == LibvirtFailure && faults == old(faults) + 1
    {
      var ok := Call();
      return if !ok then Fail(LibvirtFailure) else if n in vols then Pass else Fail(NoStorageVol);
    }

    method DescribeVolume(n: Name) returns (r: Result<Vol, Error>)
      modifies this`faults
      ensures r.Success? ==> faults == old(faults) && n in vols && r.value == vols[n]
      ensures r.Failure? && faults == old(faults) ==> r.error == NoStorageVol && n !in vols
      ensures r.Failure? && faults != old(faults) ==> r.error == LibvirtFailure && faults == old(faults) + 1
    {
      var ok := Call();
      return if !ok then Failure(LibvirtFailure) else if n in vols then Success(vols[n]) else Failure(NoStorageVol);
    }

    /** Fails on a name that is taken, as libvirt does. */
    method CreateVolume(n: Name, backing: Option<Name>) returns (r: Outcome<Error>)
      modifies this`vols, this`faults
      ensures r.Pass? ==> faults == old(faults) && n !in old(vols) && vols == old(vols)[n := Vol(backing, [])]
      ensures r.Fail? ==> vols == old(vols)
      ensures r.Fail? && faults == old(faults) ==> r.error == AlreadyExists && n in vols
      ensures r.Fail? && faults != old(faults) ==> r.error == LibvirtFailure && faults == old(faults) + 1
    {
      var ok := Call();
      if !ok {
        return Fail(LibvirtFailure);
      }
      if n in vols {
        return Fail(AlreadyExists);
      }
      vols := vols[n := Vol(backing, [])];
      return Pass;
    }

    method DeleteVolume(n: Name) returns (r: Outcome<Error>)
      modifies this`vols, this`faults, this`deleteFaults
      ensures r.Pass? ==> faults == old(faults) && n in old(vols) && vols == old(vols) - {n}
      ensures r.Fail? ==> vols == old(vols)
      ensures r.Fail? && faults == old(faults) ==> r.error == NoStorageVol && n !in vols
      ensures r.Fail? && faults != old(faults) ==> r.error == LibvirtFailure && faults == old(faults) + 1
      ensures deleteFaults - old(deleteFaults) == faults - old(faults)
    {
      var ok := Call();
      if !ok {
        deleteFaults := deleteFaults + 1;
        return Fail(LibvirtFailure);
      }
      if n !in vols {
        return Fail(NoStorageVol);
      }
      vols := vols - {n};
      return Pass;
    }

    /** Replaces the content; a transfer that breaks off leaves some other content behind. */
    method UploadVolume(n: Name, bytes: Bytes) returns (r: Outcome<Error>)
      modifies this`vols, this`faults
      ensures r.Pass? ==> faults == old(faults) && n in old(vols)
                          && vols == old(vols)[n := Vol(old(vols)[n].backing, bytes)]
      ensures r.Fail? && faults == old(faults) ==> r.error == NoStorageVol && n !in vols && vols == old(vols)
      ensures r.Fail? && faults != old(faults) ==>
                r.error == LibvirtFailure && faults == old(faults) + 1
                && (vols == old(vols)
                    || (n in old(vols) && n in vols && vols[n].backing == old(vols)[n].backing
                        && vols == old(vols)[n := vols[n]]))
    {
      var ok := Call();
      if n !in vols {
        return Fail(if ok then NoStorageVol else LibvirtFailure);
      }
      if !ok {
        var partial: Bytes := *;
        vols := vols[n := Vol(vols[n].backing, partial)];
        return Fail(LibvirtFailure);
      }
      vols := vols[n := Vol(vols[n].backing, bytes)];
      return Pass;
    }

    /** Yields the file, backing included; a transfer that breaks off yields something else. */
    method DownloadVolume(n: Name) returns (file: Vol, r: Outcome<Error>)
      modifies this`faults
      ensures r.Pass? ==> faults == old(faults) && n in vols && file == vols[n]
      ensures r.Fail? && faults == old(faults) ==> r.error == NoStorageVol && n !in vols
      ensures r.Fail? && faults != old(faults) ==> r.error == LibvirtFailure && faults == old(faults) + 1
    {
      var ok := Call();
      if !ok {
        var partial: Bytes := *;
        file, r := Vol(None, partial), Fail(LibvirtFailure);
      } else if n in vols {
        file, r := vols[n], Pass;
      } else {
        file, r := Vol(None, []), Fail(NoStorageVol);
      }
    }

    // -------------------------------------------------------------- networks

    method LookupNetwork(w: string) returns (r: Outcome<Error>)
      modifies this`faults
      ensures r.Pass? ==> faults == old(faults) && w in networks
      ensures r.Fail? && faults == old(faults) ==> r.error == NoNetwork && w !in networks
      ensures r.Fail? && faults != old(faults) ==> r.error == LibvirtFailure && faults == old(faults) + 1
    {
      var ok := Call();
      return if !ok then Fail(LibvirtFailure) else if w in networks then Pass else Fail(NoNetwork);
    }

    method DescribeNetwork(w: string) returns (r: Result<Network, Error>)
      modifies this`faults
      ensures r.Success? ==> faults == old(faults) && w in networks && r.value == networks[w]
      ensures r.Failure? && faults == old(faults) ==> r.error == NoNetwork && w !in networks
      ensures r.Failure? && faults != old(faults) ==> r.error == LibvirtFailure && faults == old(faults) + 1
    {
      var ok := Call();
      return if !ok then Failure(LibvirtFailure)
             else if w in networks then Success(networks[w])
             else Failure(NoNetwork);
    }

    method AddHostEntry(w: string, h: Host) returns (r: Outcome<Error>)
      modifies this`networks, this`faults
      ensures r.Pass? ==> faults == old(faults) && w in old(networks)
                          && networks == old(networks)[w := old(networks)[w].(hosts := old(networks)[w].hosts + [h])]
      ensures r.Fail? ==> networks == old(networks)
      ensures r.Fail? && faults == old(faults) ==> r.error == NoNetwork && w !in networks
      ensures r.Fail? && faults != old(faults) ==> r.error == LibvirtFailure && faults == old(faults) + 1
    {
      var ok := Call();
      if !ok || w !in networks {
        return Fail(if ok then NoNetwork else LibvirtFailure);
      }
      networks := networks[w := networks[w].(hosts := networks[w].hosts + [h])];
      return Pass;
    }

    /** Deletes an entry that occurs exactly once. */
    method DeleteHostEntry(w: string, h: Host) returns (r: Outcome<Error>)
      modifies this`networks, this`faults
      ensures r.Pass? ==> faults == old(faults) && w in old(networks) && Occurrences(old(networks)[w].hosts, h) == 1
                          && var rest := Without(old(networks)[w].hosts, h);
                             networks == old(networks)[w := old(networks)[w].(hosts := rest)]
      ensures r.Fail? ==> networks == old(networks)
      ensures r.Fail? && faults == old(faults) ==> w !in networks || Occurrences(networks[w].hosts, h) != 1
      ensures faults == old(faults) || (r == Fail(LibvirtFailure) && faults == old(faults) + 1)
    {
      var ok := Call();
      if !ok || w !in networks {
        return Fail(if ok then NoNetwork else LibvirtFailure);
      }
      var n := Occurrences(networks[w].hosts, h);
      if n != 1 {
        return Fail(if n == 0 then HostNotFound else HostNotUnique);
      }
      networks := networks[w := networks[w].(hosts := Without(networks[w].hosts, h))];
      return Pass;
    }

    // -------------------------------------------------------------- domains

    method ListDomains() returns (r: Result<seq<string>, Error>)
      modifies this`faults
      ensures r.Success? ==> faults == old(faults) && forall d :: d in r.value <==> d in domains
      ensures r.Failure? ==> r.error == LibvirtFailure && faults == old(faults) + 1
    {
      var ok := Call();
      if !ok {
        return Failure(LibvirtFailure);
      }
      var names, rest := [], domains.Keys;
      while rest != {}
        invariant rest <= domains.Keys
        invariant forall d :: d in domains <==> d in names || d in rest
        decreases rest
      {
        var d :| d in rest;
        names, rest := names + [d], rest - {d};
      }
      return Success(names);
    }

    /** The description also tells whether the domain is active and persistent. */
    method DescribeDomain(d: string) returns (r: Result<Domain, Error>)
      modifies this`faults
      ensures r.Success? ==> faults == old(faults) && d in domains && r.value == domains[d]
      ensures r.Failure? && faults == old(faults) ==> r.error == NoDomain && d !in domains
      ensures r.Failure? && faults != old(faults) ==> r.error == LibvirtFailure && faults == old(faults) + 1
    {
      var ok := Call();
      return if !ok then Failure(LibvirtFailure) else if d in domains then Success(domains[d]) else Failure(NoDomain);
    }

    /** Fails on a name that is taken, as libvirt does. */
    method DefineDomain(d: string, nics: seq<Nic>, disks: seq<Name>) returns (r: Outcome<Error>)
      modifies this`domains, this`faults
      ensures r.Pass? ==> faults == old(faults) && d !in old(domains)
                          && domains == old(domains)[d := Domain(true, false, nics, disks, [])]
      ensures r.Fail? ==> domains == old(domains)
      ensures r.Fail? && faults == old(faults) ==> r.error == AlreadyDefined && d in domains
      ensures r.Fail? && faults != old(faults) ==> r.error == LibvirtFailure && faults == old(faults) + 1
    {
      var ok := Call();
      if !ok || d in domains {
        return Fail(if ok then AlreadyDefined else LibvirtFailure);
      }
      domains := domains[d := Domain(true, false, nics, disks, [])];
      return Pass;
    }

    /** Starts a domain. */
    method StartDomain(d: string) returns (r: Outcome<Error>)
      modifies this`domains, this`faults
      ensures r.Pass? ==> faults == old(faults) && d in old(domains)
                          && domains == SetDomain(old(domains), d, old(domains)[d].(active := true))
      ensures r.Fail? ==> domains == old(domains)
      ensures r.Fail? && faults == old(faults) ==> r.error == NoDomain && d !in domains
      ensures r.Fail? && faults != old(faults) ==> r.error == LibvirtFailure && faults == old(faults) + 1
    {
      var ok := Call();
      if !ok || d !in domains {
        return Fail(if ok then NoDomain else LibvirtFailure);
      }
      domains := SetDomain(domains, d, domains[d].(active := true));
      return Pass;
    }

    /** Ends a run of the domain, by pulling the plug or by a clean shutdown. */
    method StopDomain(d: string) returns (r: Outcome<Error>)
      modifies this`domains, this`faults
      ensures r.Pass? ==> faults == old(faults) && d in old(domains)
                          && domains == SetDomain(old(domains), d, old(domains)[d].(active := false))
      ensures r.Fail? ==> domains == old(domains)
      ensures r.Fail? && faults == old(faults) ==> r.error == NoDomain && d !in domains
      ensures r.Fail? && faults != old(faults) ==> r.error == LibvirtFailure && faults == old(faults) + 1
    {
      var ok := Call();
      if !ok || d !in domains {
        return Fail(if ok then NoDomain else LibvirtFailure);
      }
      domains := SetDomain(domains, d, domains[d].(active := false));
      return Pass;
    }

    /** Forgets a domain's definition. */
    method UndefineDomain(d: string) returns (r: Outcome<Error>)
      modifies this`domains, this`faults
      ensures r.Pass? ==> faults == old(faults) && d in old(domains)
                          && domains == SetDomain(old(domains), d, old(domains)[d].(persistent := false))
      ensures r.Fail? ==> domains == old(domains)
      ensures r.Fail? && faults == old(faults) ==> r.error == NoDomain && d !in domains
      ensures r.Fail? && faults != old(faults) ==> r.error == LibvirtFailure && faults == old(faults) + 1
    {
      var ok := Call();
      if !ok || d !in domains {
        return Fail(if ok then NoDomain else LibvirtFailure);
      }
      domains := SetDomain(domains, d, domains[d].(persistent := false));
      return Pass;
    }

    /** Deletes the oldest snapshot. */
    method DeleteFirstSnapshot(d: string) returns (r: Outcome<Error>)
      modifies this`domains, this`faults
      ensures r.Pass? ==> faults == old(faults) && d in old(domains)
                          && var rest := Rest(old(domains)[d].snapshots);
                             domains == SetDomain(old(domains), d, old(domains)[d].(snapshots := rest))
      ensures r.Fail? ==> domains == old(domains)
      ensures r.Fail? && faults == old(faults) ==> r.error == NoDomain && d !in domains
      ensures r.Fail? && faults != old(faults) ==> r.error == LibvirtFailure && faults == old(faults) + 1
    {
      var ok := Call();
      if !ok || d !in domains {
        return Fail(if ok then NoDomain else LibvirtFailure);
      }
      domains := SetDomain(domains, d, domains[d].(snapshots := Rest(domains[d].snapshots)));
      return Pass;
    }
  }
}

/**
 DHCP host entries.  An identifier determines both a MAC address and an IP address, so that a
 machine that is created again under the same identifier gets the same address.
 */
module Dhcp {
  import opened Errors
  import opened Wrappers
  import opened Volumes
  import opened Addresses
  import opened Libvirt

  predicate HasMac(hosts: seq<Host>, mac: Bytes) {
    FindIPs(hosts, mac) != []
  }

  function WithoutMac(hosts: seq<Host>, mac: Bytes): seq<Host> {
    if hosts == [] then []
    else if hosts[0].mac == mac then WithoutMac(hosts[1..], mac)
    else [hosts[0]] + WithoutMac(hosts[1..], mac)
  }

  // ---------------------------------------------------------------- operations as functions

  /** The last identifier tried by a search; the subtraction is on machine words. */
  function LastId(hostBits: nat): UInt {
    (Pow2(hostBits) - 2) % TWO_TO_64
  }

  /** The identifier for a new machine.  The search looks at the wanted identifier in every round. */
  function GetVmId(networks: map<string, Network>, w: string, wanted: UInt, staticDhcp: bool): Result<UInt, Error> {
    if staticDhcp && wanted == 0 then Failure(IdRequired)
    else if staticDhcp && !QemuFits(wanted) then Failure(MacOverflow)
    else if w !in networks then Failure(NoNetwork)
    else if !staticDhcp && networks[w].ipNet.None? then Failure(NoIPv4)
    else if !QemuFits(wanted) then Failure(MacOverflow)
    else
      var used := HasMac(networks[w].hosts, QemuMAC(wanted));
      if staticDhcp then (if used then Success(wanted) else Failure(NoDhcpEntry))
      else if wanted != 0 then (if used then Failure(IdUsed) else Success(wanted))
      else
        var last := LastId(networks[w].ipNet.value.hostBits);
        if last >= 2 && !used then Success(last) else Failure(NoFreeId)
  }

  /** The address paired with an identifier. */
  function PairedIP(net: IPNet, id: UInt): Option<nat> {
    CidrHost(NetworkAddress(net.address, net.hostBits), net.hostBits, Signed(id))
  }

  function AddHost(networks: map<string, Network>, w: string, mac: Bytes, id: UInt): Result<map<string, Network>,
                   Error> {
    if w !in networks then Failure(NoNetwork)
    else if networks[w].ipNet.None? then Failure(NoIPv4)
    else
      match PairedIP(networks[w].ipNet.value, id)
      case None => Failure(HostOutOfRange)
      case Some(ip) => Success(networks[w := networks[w].(hosts := networks[w].hosts + [Host(mac, ip)])])
  }

  // ---------------------------------------------------------------- the operations

  method GetIPNet(c: Connection) returns (r: Result<IPNet, Error>)
    modifies c`faults
    ensures c.faults >= old(c.faults)
    ensures c.faults == old(c.faults) ==>
              r == if c.accessNetwork !in c.networks then Failure(NoNetwork)
                   else if c.networks[c.accessNetwork].ipNet.None? then Failure(NoIPv4)
                   else Success(c.networks[c.accessNetwork].ipNet.value)
    ensures r.Success? ==> c.faults == old(c.faults)
  {
    var net :- c.DescribeNetwork(c.accessNetwork);
    return if net.ipNet.None? then Failure(NoIPv4) else Success(net.ipNet.value);
  }

  method ReadIPs(c: Connection, w: string, mac: Bytes) returns (r: Result<seq<nat>, Error>)
    modifies c`faults
    ensures c.faults >= old(c.faults)
    ensures r.Success? ==> c.faults == old(c.faults) && w in c.networks && r.value == FindIPs(c.networks[w].hosts, mac)
    ensures r.Failure? && c.faults == old(c.faults) ==> w !in c.networks && r.error == NoNetwork
  {
    var net :- c.DescribeNetwork(w);
    return Success(FindIPs(net.hosts, mac));
  }

  /** An identifier whose MAC overflows makes the program panic. */
  method GetVMID(c: Connection, wanted: UInt, staticDhcp: bool) returns (r: Result<UInt, Error>)
    modifies c`faults
    ensures c.faults >= old(c.faults)
    ensures c.faults == old(c.faults) ==> r == GetVmId(c.networks, c.accessNetwork, wanted, staticDhcp)
    ensures r.Success? ==> c.faults == old(c.faults)
  {
    if staticDhcp {
      if wanted == 0 {
        return Failure(IdRequired);
      }
      if !QemuFits(wanted) {
        return Failure(MacOverflow);
      }
      var ips :- ReadIPs(c, c.accessNetwork, QemuMAC(wanted));
      return if |ips| < 1 then Failure(NoDhcpEntry) else Success(wanted);
    }
    var net :- GetIPNet(c);
    QemuMacTotal(0);
    var start, end: UInt := 2, LastId(net.hostBits);
    if wanted != 0 {
      start, end := wanted, wanted;
    }
    var i: int := end;
    while i >= start
      invariant i <= end && c.faults == old(c.faults)
      invariant i < end ==> QemuFits(wanted) && HasMac(c.networks[c.accessNetwork].hosts, QemuMAC(wanted))
      decreases i
    {
      if !QemuFits(wanted) {
        return Failure(MacOverflow);
      }
      var ips :- ReadIPs(c, c.accessNetwork, QemuMAC(wanted));
      if |ips| == 0 {
        return Success(i);
      }
      i := i - 1;
    }
    return Failure(if wanted != 0 then IdUsed else NoFreeId);
  }

  method AddDHCPHost(c: Connection, mac: Bytes, id: UInt) returns (r: Outcome<Error>)
    modifies c`networks, c`faults
    ensures c.faults >= old(c.faults)
    ensures c.faults == old(c.faults) ==>
              match AddHost(old(c.networks), c.accessNetwork, mac, id)
              case Success(networks) => r.Pass? && c.networks == networks
              case Failure(e) => r == Fail(e) && c.networks == old(c.networks)
    ensures r.Pass? ==> c.faults == old(c.faults)
    ensures r.Fail? ==> c.networks == old(c.networks)
  {
    var net := GetIPNet(c);
    if net.Failure? {
      return Fail(net.error);
    }
    var ip := PairedIP(net.value, id);
    if ip.None? {
      return Fail(HostOutOfRange);
    }
    r := c.AddHostEntry(c.accessNetwork, Host(mac, ip.value));
  }

  /** Entries have gone, and none has come. */
  ghost predicate Fewer(hosts: seq<Host>, hosts': seq<Host>) {
    multiset(hosts') <= multiset(hosts)
  }

  /** The first few entries of the MAC have gone, and nothing else has changed. */
  ghost predicate CutShort(hosts: seq<Host>, hosts': seq<Host>, mac: Bytes) {
    && Fewer(hosts, hosts') && WithoutMac(hosts', mac) == WithoutMac(hosts, mac)
    && exists k :: 0 <= k <= |FindIPs(hosts, mac)| && FindIPs(hosts', mac) == FindIPs(hosts, mac)[k..]
  }

  lemma {:induction false} WithoutIsFewer(hosts: seq<Host>, h: Host)
    ensures Fewer(hosts, Without(hosts, h))
  {
    if hosts != [] {
      WithoutIsFewer(hosts[1..], h);
      assert hosts == [hosts[0]] + hosts[1..];
    }
  }

  /** The first i entries of the MAC have gone. */
  ghost predicate RemovedUpTo(before: seq<Host>, hosts: seq<Host>, mac: Bytes, i: nat)
    requires i <= |FindIPs(before, mac)|
  {
    && Fewer(before, hosts) && WithoutMac(hosts, mac) == WithoutMac(before, mac)
    && FindIPs(hosts, mac) == FindIPs(before, mac)[i..]
  }

  lemma {:induction false} RemoveNext(before: seq<Host>, hosts: seq<Host>, mac: Bytes, i: nat)
    requires i < |FindIPs(before, mac)| && RemovedUpTo(before, hosts, mac, i)
    ensures var h := Host(mac, FindIPs(before, mac)[i]);
            && (Occurrences(hosts, h) == 1 ==> RemovedUpTo(before, Without(hosts, h), mac, i + 1))
            && (Distinct(FindIPs(before, mac)) ==> Occurrences(hosts, h) == 1)
  {
    var ips := FindIPs(before, mac);
    var h := Host(mac, ips[i]);
    assert ips[i..] == [ips[i]] + ips[i + 1..];
    OccurrencesAreCounted(hosts, h);
    if Distinct(ips) {
      CountDistinct(ips[i + 1..], ips[i]);
    }
    if Occurrences(hosts, h) == 1 {
      RemoveFirst(hosts, h);
      WithoutIsFewer(hosts, h);
    }
  }

  /** Deletes the entries of one MAC, one by one. */
  method RemoveDHCPEntries(c: Connection, w: string, mac: Bytes, ips: seq<nat>) returns (r: Outcome<Error>)
    requires w in c.networks && ips == FindIPs(c.networks[w].hosts, mac)
    modifies c`networks, c`faults
    ensures c.faults >= old(c.faults)
    ensures w in c.networks && c.networks == old(c.networks)[w := old(c.networks)[w].(hosts := c.networks[w].hosts)]
    ensures CutShort(old(c.networks)[w].hosts, c.networks[w].hosts, mac)
    ensures r.Pass? ==> c.faults == old(c.faults) && c.networks[w].hosts == WithoutMac(old(c.networks)[w].hosts, mac)
    ensures c.faults == old(c.faults) && Distinct(ips) ==> r.Pass?
  {
    ghost var before := c.networks;
    for i := 0 to |ips|
      invariant c.faults == old(c.faults)
      invariant w in c.networks && c.networks == before[w := before[w].(hosts := c.networks[w].hosts)]
      invariant RemovedUpTo(before[w].hosts, c.networks[w].hosts, mac, i)
    {
      RemoveNext(before[w].hosts, c.networks[w].hosts, mac, i);
      r := c.DeleteHostEntry(w, Host(mac, ips[i]));
      if r.Fail? {
        return;
      }
    }
    NoneLeft(c.networks[w].hosts, mac);
    return Pass;
  }

  /** Only the entries of the MAC on the access network have gone, some or all of them. */
  ghost predicate MacRemoved(before: map<string, Network>, after: map<string, Network>, w: string, mac: Bytes) {
    || after == before
    || (&& w in before && w in after && after == before[w := before[w].(hosts := after[w].hosts)]
        && CutShort(before[w].hosts, after[w].hosts, mac))
  }

  method RemoveMACDHCPEntries(c: Connection, mac: Bytes) returns (r: Outcome<Error>)
    modifies c`networks, c`faults
    ensures c.faults >= old(c.faults)
    ensures MacRemoved(old(c.networks), c.networks, c.accessNetwork, mac)
    ensures r.Pass? ==> c.faults == old(c.faults)
    ensures var w := c.accessNetwork;
            c.faults == old(c.faults) && w in old(c.networks) && Distinct(FindIPs(old(c.networks)[w].hosts, mac)) ==>
              r.Pass?
    ensures r.Pass? ==>
              var w := c.accessNetwork;
              && w in old(c.networks)
              && var rest := WithoutMac(old(c.networks)[w].hosts, mac);
                 c.networks == old(c.networks)[w := old(c.networks)[w].(hosts := rest)]
  {
    var ips := ReadIPs(c, c.accessNetwork, mac);
    if ips.Failure? {
      return Fail(ips.error);
    }
    r := RemoveDHCPEntries(c, c.accessNetwork, mac, ips.value);
  }

  /** `network host add`: all identifiers are checked before the first entry is made. */
  method NetworkHostAdd(c: Connection, id: UInt, count: UInt) returns (r: Outcome<Error>)
    modifies c`networks, c`faults
    ensures c.faults >= old(c.faults)
    ensures r.Pass? ==> c.faults == old(c.faults)
    ensures HostsAdded(old(c.networks), c.networks, c.accessNetwork, id, count, r.Pass?)
    ensures c.faults == old(c.faults) ==> (r.Pass? <==> CanAdd(old(c.networks), c.accessNetwork, id, count))
  {
    if id == 0 {
      return Fail(IdRequired);
    }
    r := CheckIdsFree(c, id, count);
    if r.Pass? {
      r := AddHostRange(c, id, count);
    }
  }

  method CheckIdsFree(c: Connection, id: UInt, count: UInt) returns (r: Outcome<Error>)
    modifies c`faults
    ensures c.faults >= old(c.faults)
    ensures r.Pass? ==> c.faults == old(c.faults)
    ensures r.Pass? && count > 0 ==>
              c.accessNetwork in c.networks && AllFree(c.networks[c.accessNetwork].hosts, id, count)
    ensures c.faults == old(c.faults) ==> (r.Pass? <==> AllGiven(c.networks, c.accessNetwork, id, count))
  {
    var w := c.accessNetwork;
    for i := 0 to count
      invariant c.faults == old(c.faults)
      invariant forall k :: 0 <= k < i ==> IsGiven(c.networks, w, IdAt(id, k))
      invariant i > 0 ==> w in c.networks && AllFree(c.networks[w].hosts, id, i)
    {
      var x := IdAt(id, i);
      VmIdIsFree(c.networks, w, x);
      var free := GetVMID(c, x, false);
      assert c.faults == old(c.faults) ==> (free.Success? <==> IsGiven(c.networks, w, x));
      if free.Failure? {
        return Fail(free.error);
      }
      assert FreeId(c.networks[w].hosts, x);
    }
    return Pass;
  }

  method AddHostRange(c: Connection, id: UInt, count: UInt) returns (r: Outcome<Error>)
    requires id != 0
    requires count > 0 ==> c.accessNetwork in c.networks && AllFree(c.networks[c.accessNetwork].hosts, id, count)
    modifies c`networks, c`faults
    ensures c.faults >= old(c.faults)
    ensures r.Pass? ==> c.faults == old(c.faults)
    ensures HostsAdded(old(c.networks), c.networks, c.accessNetwork, id, count, r.Pass?)
    ensures c.faults == old(c.faults) ==> (r.Pass? <==> AllHaveAddresses(old(c.networks), c.accessNetwork, id, count))
  {
    if count == 0 {
      return Pass;
    }
    var w := c.accessNetwork;
    ghost var before := c.networks;
    for i := 0 to count
      invariant c.faults == old(c.faults)
      invariant w in c.networks && c.networks == before[w := before[w].(hosts := c.networks[w].hosts)]
      invariant AddedFrom(before[w], c.networks[w].hosts, id, i)
      invariant forall k :: 0 <= k < i ==> HasAddress(before, w, IdAt(id, k))
    {
      var x := IdAt(id, i);
      assert FreeId(before[w].hosts, x);
      ghost var hosts := c.networks[w].hosts;
      r := AddDHCPHost(c, QemuMAC(x), x);
      assert c.faults == old(c.faults) ==> (r.Pass? <==> HasAddress(before, w, x));
      if r.Fail? {
        return;
      }
      OneMoreAdded(before[w], hosts, c.networks[w].hosts, id, i);
    }
    return Pass;
  }

  lemma {:induction false} OneMoreAdded(net: Network, hosts: seq<Host>, hosts': seq<Host>, id: UInt, n: nat)
    requires AddedFrom(net, hosts, id, n) && net.ipNet.Some?
    requires |hosts'| == |hosts| + 1 && hosts'[..|hosts|] == hosts
    requires PairedEntry(net.ipNet.value, hosts'[|hosts|], IdAt(id, n))
    ensures AddedFrom(net, hosts', id, n + 1)
  {
    assert hosts'[..|net.hosts|] == hosts[..|net.hosts|];
    forall k | |net.hosts| <= k < |hosts'| ensures PairedEntry(net.ipNet.value, hosts'[k], IdAt(id, k - |net.hosts|)) {
      assert k < |hosts| ==> hosts'[k] == hosts[k];
    }
  }

  /** GetVMID gives out this identifier, or for 0 one that it searches for. */
  ghost predicate IsGiven(networks: map<string, Network>, w: string, x: UInt) {
    && w in networks && networks[w].ipNet.Some? && FreeId(networks[w].hosts, x)
    && (x == 0 ==> networks[w].ipNet.value.hostBits != 1)
  }

  ghost predicate AllGiven(networks: map<string, Network>, w: string, id: UInt, count: UInt) {
    forall k :: 0 <= k < count ==> IsGiven(networks, w, IdAt(id, k))
  }

  /** The network has a host of that number, counted from its beginning or, for a negative number, from its end. */
  ghost predicate HasAddress(networks: map<string, Network>, w: string, x: UInt) {
    && w in networks && networks[w].ipNet.Some?
    && var size := Pow2(networks[w].ipNet.value.hostBits); 0 <= Signed(x) + size < 2 * size
  }

  ghost predicate AllHaveAddresses(networks: map<string, Network>, w: string, id: UInt, count: UInt) {
    forall k :: 0 <= k < count ==> HasAddress(networks, w, IdAt(id, k))
  }

  /** Adding hosts succeeds exactly if all of the identifiers are free and have an address in the network. */
  ghost predicate CanAdd(networks: map<string, Network>, w: string, id: UInt, count: UInt) {
    id != 0 && AllGiven(networks, w, id, count) && AllHaveAddresses(networks, w, id, count)
  }

  /** None of the identifiers from id on has an entry. */
  ghost predicate AllFree(hosts: seq<Host>, id: UInt, n: nat) {
    forall k :: 0 <= k < n ==> FreeId(hosts, IdAt(id, k))
  }

  ghost predicate FreeId(hosts: seq<Host>, id: UInt) {
    QemuFits(id) && !HasMac(hosts, QemuMAC(id))
  }

  /** hosts is what net had, followed by the entries of n consecutive identifiers. */
  ghost predicate AddedFrom(net: Network, hosts: seq<Host>, id: UInt, n: nat) {
    && |hosts| == |net.hosts| + n && hosts[..|net.hosts|] == net.hosts
    && (n > 0 ==> net.ipNet.Some?)
    && forall k :: |net.hosts| <= k < |hosts| ==> PairedEntry(net.ipNet.value, hosts[k], IdAt(id, k - |net.hosts|))
  }

  /** Adding hosts either changes nothing, or adds the first few or, on success, all of them. */
  ghost predicate HostsAdded(before: map<string, Network>, after: map<string, Network>, w: string,
                             id: UInt, count: UInt, done: bool)
  {
    || (after == before && (done ==> count == 0))
    || (&& w in before && w in after && after == before[w := before[w].(hosts := after[w].hosts)]
        && id != 0 && AllFree(before[w].hosts, id, count)
        && exists n: nat :: n <= count && (done ==> n == count) && AddedFrom(before[w], after[w].hosts, id, n))
  }

  ghost predicate PairedEntry(net: IPNet, h: Host, id: UInt) {
    QemuFits(id) && PairedIP(net, id) == Some(h.ip) && h.mac == QemuMAC(id)
  }

  // ---------------------------------------------------------------- removing

  function Count(ips: seq<nat>, ip: nat): nat {
    if ips == [] then 0 else (if ips[0] == ip then 1 else 0) + Count(ips[1..], ip)
  }

  lemma {:induction false} OccurrencesAreCounted(hosts: seq<Host>, h: Host)
    ensures Occurrences(hosts, h) == Count(FindIPs(hosts, h.mac), h.ip)
  {
    if hosts != [] {
      OccurrencesAreCounted(hosts[1..], h);
      if hosts[0].mac == h.mac {
        assert FindIPs(hosts, h.mac)[1..] == FindIPs(hosts[1..], h.mac);
      }
    }
  }

  lemma {:induction false} CountDistinct(ips: seq<nat>, ip: nat)
    requires ip !in ips
    ensures Count(ips, ip) == 0
  {
    if ips != [] {
      CountDistinct(ips[1..], ip);
    }
  }

  lemma {:induction false} NotFoundUnchanged(hosts: seq<Host>, h: Host)
    requires Occurrences(hosts, h) == 0
    ensures Without(hosts, h) == hosts
  {
    if hosts != [] {
      NotFoundUnchanged(hosts[1..], h);
    }
  }

  /** Removing the first entry of a MAC, if it is unique, leaves the rest of that MAC and all others. */
  lemma {:induction false} RemoveFirst(hosts: seq<Host>, h: Host)
    requires FindIPs(hosts, h.mac) != [] && FindIPs(hosts, h.mac)[0] == h.ip && Occurrences(hosts, h) == 1
    ensures FindIPs(Without(hosts, h), h.mac) == FindIPs(hosts, h.mac)[1..]
    ensures WithoutMac(Without(hosts, h), h.mac) == WithoutMac(hosts, h.mac)
  {
    if hosts[0] == h {
      NotFoundUnchanged(hosts[1..], h);
      assert FindIPs(hosts, h.mac)[1..] == FindIPs(hosts[1..], h.mac);
    } else {
      RemoveFirst(hosts[1..], h);
      var rest := Without(hosts[1..], h);
      assert Without(hosts, h)[1..] == rest;
    }
  }

  lemma {:induction false} NoneLeft(hosts: seq<Host>, mac: Bytes)
    requires FindIPs(hosts, mac) == []
    ensures WithoutMac(hosts, mac) == hosts
  {
    if hosts != [] {
      NoneLeft(hosts[1..], mac);
    }
  }

  lemma {:induction false} WithoutMacIdempotent(hosts: seq<Host>, mac: Bytes)
    ensures FindIPs(WithoutMac(hosts, mac), mac) == []
    ensures forall h :: h in WithoutMac(hosts, mac) <==> h in hosts && h.mac != mac
  {
    if hosts != [] {
      WithoutMacIdempotent(hosts[1..], mac);
    }
  }

  lemma {:induction false} FoundIffPresent(hosts: seq<Host>, mac: Bytes)
    ensures HasMac(hosts, mac) <==> exists h :: h in hosts && h.mac == mac
    ensures forall ip :: ip in FindIPs(hosts, mac) ==> Host(mac, ip) in hosts
  {
    if hosts != [] {
      FoundIffPresent(hosts[1..], mac);
    }
  }

  // ---------------------------------------------------------------- choosing an identifier

  lemma {:induction false} Pow2Grows(a: nat, b: nat)
    requires a <= b
    ensures Pow2(a) <= Pow2(b)
    decreases b
  {
    if a < b {
      Pow2Grows(a, b - 1);
    }
  }

  lemma {:induction false} Pow2Values()
    ensures Pow2(2) == 4 && Pow2(16) == 0x1_0000 && Pow2(32) == 0x1_0000_0000
  {
    assert Pow2(4) == 16 && Pow2(8) == 256 && Pow2(12) == 0x1000 && Pow2(16) == 0x1_0000;
    assert Pow2(20) == 0x10_0000 && Pow2(24) == 0x100_0000 && Pow2(28) == 0x1000_0000;
  }

  /** What a search can hand out: the last identifier, where the subtraction leaves one that is not too small. */
  function Found(hostBits: HostBits): Option<UInt> {
    if hostBits == 1 then None else Some(LastId(hostBits))
  }

  lemma {:induction false} FoundValue(hostBits: HostBits)
    ensures Found(hostBits) == if hostBits == 0 then Some(TWO_TO_64 - 1)
                               else if hostBits == 1 then None
                               else Some(Pow2(hostBits) - 2)
    ensures hostBits >= 2 ==> 4 <= Pow2(hostBits) <= 0x1_0000_0000
    ensures (Found(hostBits).Some? <==> LastId(hostBits) >= 2)
    ensures Found(hostBits).Some? ==> (2 <= Found(hostBits).value <= Pow2(hostBits) - 2 <==> hostBits >= 2)
  {
    Pow2Values();
    Pow2Grows(hostBits, 32);
    assert Pow2(0) == 1 && Pow2(1) == 2 * Pow2(0);
    if hostBits >= 2 {
      Pow2Grows(2, hostBits);
    }
  }

  /**
   An identifier asked for is given exactly when it has no entry.  One that is searched for is
   always the same one, handed out exactly when identifier 0 has no entry.  It is one of the
   network's exactly if the network has two host bits; with one there is nothing to try, and with
   none the upper end wraps around.  Where the network or its address is missing none is given.
   */
  lemma {:induction false} VmIdIsFree(networks: map<string, Network>, w: string, wanted: UInt)
    ensures QemuFits(0)
    ensures var r := GetVmId(networks, w, wanted, false);
            if w !in networks || networks[w].ipNet.None? then r.Failure?
            else
              var hosts, h := networks[w].hosts, networks[w].ipNet.value.hostBits;
              && (wanted != 0 ==> (r.Success? <==> FreeId(hosts, wanted)) && (r.Success? ==> r.value == wanted))
              && (wanted == 0 ==> (r.Success? <==> FreeId(hosts, 0) && h != 1))
              && (wanted == 0 && r.Failure? ==> r.error == NoFreeId)
              && (wanted == 0 && r.Success? ==> r.value == if h == 0 then TWO_TO_64 - 1 else Pow2(h) - 2)
              && (wanted == 0 && r.Success? ==> (2 <= r.value <= Pow2(h) - 2 <==> h >= 2))
  {
    QemuMacTotal(0);
    if w in networks && networks[w].ipNet.Some? {
      FoundValue(networks[w].ipNet.value.hostBits);
    }
  }

  /** With static entries an identifier is given exactly if it was asked for and has an entry. */
  lemma {:induction false} StaticIdHasEntry(networks: map<string, Network>, w: string, wanted: UInt)
    ensures var r := GetVmId(networks, w, wanted, true);
            && (r.Success? <==> wanted != 0 && QemuFits(wanted) && w in networks
                                && exists h :: h in networks[w].hosts && h.mac == QemuMAC(wanted))
            && (r.Success? ==> r.value == wanted)
  {
    if w in networks && QemuFits(wanted) {
      FoundIffPresent(networks[w].hosts, QemuMAC(wanted));
    }
  }

  lemma {:induction false} BytesBelowBase()
    ensures ToBytes(0x5253_ffff_ffff) == [0x52, 0x53, 0xff, 0xff, 0xff, 0xff]
  {
    assert ToBytes(0x52) == [0x52] by {
      assert ToBytes(0) == [];
    }
    assert ToBytes(0x5253) == ToBytes(0x52) + [0x53];
    assert ToBytes(0x5253ff) == ToBytes(0x5253) + [0xff];
    assert ToBytes(0x5253ffff) == ToBytes(0x5253ff) + [0xff];
    assert ToBytes(0x5253ffffff) == ToBytes(0x5253ffff) + [0xff];
    assert ToBytes(0x5253ffffffff) == ToBytes(0x5253ffffff) + [0xff];
  }

  /**
   What the search hands out in a network of one address: an identifier whose MAC is not one of
   QEMU's and whose address is the interface's own.
   */
  lemma {:induction false} SearchLeavesTinyNetwork(networks: map<string, Network>, w: string)
    requires w in networks && networks[w].ipNet.Some? && networks[w].ipNet.value.hostBits == 0
    ensures QemuFits(0)
    ensures var r, net := GetVmId(networks, w, 0, false), networks[w].ipNet.value;
            r.Success? ==> && QemuFits(r.value) && QemuMAC(r.value) == [0x52, 0x53, 0xff, 0xff, 0xff, 0xff]
                           && PairedIP(net, r.value) == Some(net.address)
  {
    VmIdIsFree(networks, w, 0);
    LastIdFits(0);
    FoundValue(0);
    LargestId();
  }

  /** The MAC of the largest identifier is one below QEMU's. */
  lemma {:induction false} LargestId()
    ensures QemuFits(TWO_TO_64 - 1) && QemuMAC(TWO_TO_64 - 1) == [0x52, 0x53, 0xff, 0xff, 0xff, 0xff]
  {
    QemuBaseValue();
    BytesBelowBase();
    assert Abs(FromBytes(QEMU_BASE) + Signed(TWO_TO_64 - 1)) == 0x5253_ffff_ffff;
    assert Zeros(0) + ToBytes(0x5253_ffff_ffff) == ToBytes(0x5253_ffff_ffff);
  }

  /** Whatever the search hands out has an address. */
  lemma {:induction false} LastIdFits(hostBits: HostBits)
    ensures QemuFits(LastId(hostBits))
  {
    Pow2Values();
    Pow2Grows(hostBits, 32);
    QemuBaseValue();
    AddMacValue(QEMU_BASE, LastId(hostBits));
    assert hostBits > 0 ==> Pow2(hostBits) >= 2;
  }

  /** Wherever the search can hand out anything, it hands out a taken identifier if only that one is taken. */
  lemma {:induction false} SearchMayReturnUsedId(w: string, net: IPNet, ip: nat)
    ensures Found(net.hostBits).None? ==> forall hosts ::
              QemuFits(0) && GetVmId(map[w := Network(Some(net), hosts)], w, 0, false) == Failure(NoFreeId)
    ensures Found(net.hostBits).Some? ==>
              var last := Found(net.hostBits).value;
              && QemuFits(last) && QemuFits(0)
              && var networks := map[w := Network(Some(net), [Host(QemuMAC(last), ip)])];
                 GetVmId(networks, w, 0, false) == Success(last) && HasMac(networks[w].hosts, QemuMAC(last))
  {
    QemuMacTotal(0);
    FoundValue(net.hostBits);
    if Found(net.hostBits).None? {
      forall hosts ensures GetVmId(map[w := Network(Some(net), hosts)], w, 0, false) == Failure(NoFreeId) {
        VmIdIsFree(map[w := Network(Some(net), hosts)], w, 0);
      }
    } else {
      var last := Found(net.hostBits).value;
      LastIdFits(net.hostBits);
      QemuBaseValue();
      AddMacCollides(QEMU_BASE, 0, last);
      FindInOne(QemuMAC(last), ip, QemuMAC(last));
      FindInOne(QemuMAC(last), ip, QemuMAC(0));
    }
  }

  lemma {:induction false} FindInOne(mac: Bytes, ip: nat, wanted: Bytes)
    ensures HasMac([Host(mac, ip)], wanted) <==> mac == wanted
  {
    var hosts := [Host(mac, ip)];
    assert hosts[0] == Host(mac, ip) && hosts[1..] == [];
    assert FindIPs(hosts[1..], wanted) == [];
  }
}

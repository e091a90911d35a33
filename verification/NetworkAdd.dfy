/** The DHCP section of a new network: a range of addresses, and host entries for consecutive identifiers. */
module NetworkAdd {
  import opened Wrappers
  import opened Volumes
  import opened Addresses
  import opened Libvirt
  import opened Dhcp
  import opened Pairs

  /** The interface address of a network with its netmask; addresses have 32 or 128 bits. */
  datatype Subnet = Subnet(bits: nat, address: nat, hostBits: nat)

  predicate IsSubnet(net: Subnet) {
    net.hostBits <= net.bits && net.address < Pow2(net.bits)
  }

  datatype DhcpRange = DhcpRange(start: nat, end: nat)

  datatype DhcpSection = DhcpSection(range: DhcpRange, hosts: seq<Host>)

  // ---------------------------------------------------------------- counting addresses

  /** The next address; the last one is followed by the first. */
  function Inc(bits: nat, ip: nat): nat {
    if ip + 1 == Pow2(bits) then 0 else ip + 1
  }

  function Dec(bits: nat, ip: nat): nat {
    if ip == 0 then Pow2(bits) - 1 else ip - 1
  }

  function Nth(bits: nat, ip: nat, i: nat): nat {
    if i == 0 then ip else Inc(bits, Nth(bits, ip, i - 1))
  }

  function Broadcast(net: Subnet): nat {
    NetworkAddress(net.address, net.hostBits) + Pow2(net.hostBits) - 1
  }

  /** The range that is written into the network: never more than 16 bits of hosts. */
  function RangeOf(net: Subnet): DhcpRange {
    DhcpRange(Inc(net.bits, net.address),
              if net.hostBits > 16 then NetworkAddress(net.address, net.hostBits) + 65535
              else Dec(net.bits, Broadcast(net)))
  }

  predicate IsEntry(net: Subnet, mac: Bytes, dhcpID: UInt, i: nat, h: Host) {
    AddMac(mac, IdAt(dhcpID, i)) == Success(h.mac) && h.ip == Nth(net.bits, RangeOf(net).start, i)
  }

  predicate MacFits(mac: Bytes, dhcpID: UInt, i: nat) {
    AddMac(mac, IdAt(dhcpID, i)).Success?
  }

  predicate AreEntries(net: Subnet, mac: Bytes, dhcpID: UInt, hosts: seq<Host>) {
    forall i :: 0 <= i < |hosts| ==> IsEntry(net, mac, dhcpID, i, hosts[i])
  }

  method BuildRange(net: Subnet) returns (r: DhcpRange)
    requires IsSubnet(net)
    ensures r == RangeOf(net)
  {
    var start, end := Inc(net.bits, net.address), Broadcast(net);
    if net.hostBits > 16 {
      Pow2Values();
      Pow2Grows(16, net.hostBits);
      end := CidrHost(NetworkAddress(net.address, net.hostBits), net.hostBits, 65535).value;
    } else {
      end := Dec(net.bits, end);
    }
    r := DhcpRange(start, end);
  }

  /** Fails exactly if some MAC overflows; otherwise lists one entry per identifier. */
  method BuildNetworkDHCP(net: Subnet, mac: Bytes, dhcpID: UInt, dhcpCount: UInt)
    returns (r: Result<DhcpSection, MacError>)
    requires IsSubnet(net)
    ensures r.Success? <==> forall i :: 0 <= i < dhcpCount ==> MacFits(mac, dhcpID, i)
    ensures r.Success? ==> r.value.range == RangeOf(net)
    ensures r.Success? ==> |r.value.hosts| == dhcpCount && AreEntries(net, mac, dhcpID, r.value.hosts)
  {
    var range := BuildRange(net);
    var current := range.start;
    var hosts := new Host[dhcpCount];
    for i := 0 to dhcpCount
      invariant current == Nth(net.bits, range.start, i)
      invariant forall k :: 0 <= k < i ==> MacFits(mac, dhcpID, k)
      invariant forall k :: 0 <= k < i ==> IsEntry(net, mac, dhcpID, k, hosts[k])
    {
      var entryMac := AddToMAC(mac, IdAt(dhcpID, i));
      assert entryMac.Success? <==> MacFits(mac, dhcpID, i);
      if entryMac.Failure? {
        return Failure(entryMac.error);
      }
      hosts[i] := Host(entryMac.value, current);
      assert IsEntry(net, mac, dhcpID, i, hosts[i]);
      current := Inc(net.bits, current);
    }
    assert AreEntries(net, mac, dhcpID, hosts[..]);
    return Success(DhcpSection(range, hosts[..]));
  }

  // ---------------------------------------------------------------- the range

  /** A network lies within the address space. */
  lemma {:induction false} NetworkFits(address: nat, hostBits: nat, bits: nat)
    requires hostBits <= bits && address < Pow2(bits)
    ensures NetworkAddress(address, hostBits) + Pow2(hostBits) <= Pow2(bits)
    decreases bits
  {
    if hostBits > 0 {
      NetworkFits(address / 2, hostBits - 1, bits - 1);
    }
  }

  /** The last address of a range that starts inside the network. */
  function LastUsable(net: Subnet): int {
    NetworkAddress(net.address, net.hostBits) + if net.hostBits > 16 then 65535 else Pow2(net.hostBits) - 2
  }

  predicate InRange(range: DhcpRange, ip: nat) {
    range.start <= ip <= range.end
  }

  /** Nonempty, of at most 65535 addresses, within the network, and free for guests. */
  ghost predicate GoodRange(net: Subnet, range: DhcpRange) {
    && range.start <= range.end < range.start + 65535
    && forall ip: nat :: InRange(range, ip) ==>
         && NetworkAddress(net.address, net.hostBits) < ip < Broadcast(net)
         && ip != net.address
  }

  /** The range is good exactly if the interface address leaves an address after it. */
  lemma {:induction false} RangeIsGood(net: Subnet)
    requires IsSubnet(net)
    ensures GoodRange(net, RangeOf(net)) <==> net.address < LastUsable(net)
    ensures net.address < LastUsable(net) ==> RangeOf(net) == DhcpRange(net.address + 1, LastUsable(net))
  {
    var range := RangeOf(net);
    NetworkFits(net.address, net.hostBits, net.bits);
    Pow2Values();
    if net.hostBits > 16 {
      Pow2Grows(17, net.hostBits);
      assert Pow2(17) == 2 * Pow2(16);
    } else {
      Pow2Grows(net.hostBits, 16);
    }
    if range.start <= range.end {
      assert InRange(range, range.start) && InRange(range, range.end);
    }
  }

  /**
   A good range has every address that it can have: those of the network after the interface's and before
   the broadcast address, up to number 65535.
   */
  lemma {:induction false} RangeExactly(net: Subnet, ip: nat)
    requires IsSubnet(net) && net.address < LastUsable(net)
    ensures var size := Pow2(net.hostBits);
            InRange(RangeOf(net), ip)
            <==> net.address < ip && ip / size == net.address / size && ip % size != size - 1 && ip % size <= 65535
  {
    RangeIsGood(net);
    SizeAndLimit(net.hostBits);
    InNetworkExactly(net, ip);
  }

  /** The addresses of a network are those that only differ from the interface's in the host bits. */
  lemma {:induction false} InNetworkExactly(net: Subnet, ip: nat)
    ensures var size, base := Pow2(net.hostBits), NetworkAddress(net.address, net.hostBits);
            && (ip / size == net.address / size <==> base <= ip < base + size)
            && (base <= ip < base + size ==> ip % size == ip - base)
  {
    var size := Pow2(net.hostBits);
    var m := NetworkAddressMultiple(net.address, net.hostBits);
    RemainderIs(net.address, size, m);
    if size * m <= ip < size * m + size {
      RemainderIs(ip, size, m);
    }
    assert ip == size * (ip / size) + ip % size;
  }

  lemma {:induction false} SizeAndLimit(hostBits: nat)
    ensures hostBits > 16 ==> Pow2(hostBits) >= 0x2_0000
    ensures hostBits <= 16 ==> Pow2(hostBits) <= 0x1_0000
  {
    Pow2Values();
    if hostBits > 16 {
      Pow2Grows(17, hostBits);
      assert Pow2(17) == 2 * Pow2(16);
    } else {
      Pow2Grows(hostBits, 16);
    }
  }

  // ---------------------------------------------------------------- the entries

  /** Counting on wraps around once. */
  lemma {:induction false} NthValue(bits: nat, ip: nat, i: nat)
    requires ip < Pow2(bits) && ip + i < 2 * Pow2(bits)
    ensures Nth(bits, ip, i) == if ip + i < Pow2(bits) then ip + i else ip + i - Pow2(bits)
  {
    if i > 0 {
      NthValue(bits, ip, i - 1);
    }
  }

  /**
   No two entries share a MAC, except exactly if their sums with the base only differ in sign; for
   identifiers below 2^63 that never happens.
   */
  lemma {:induction false} EntryMacsDistinct(net: Subnet, mac: Bytes, dhcpID: UInt, hosts: seq<Host>, i: nat, j: nat)
    requires AreEntries(net, mac, dhcpID, hosts) && i < j < |hosts| <= TWO_TO_64
    ensures hosts[i].mac == hosts[j].mac <==> Opposite(mac, IdAt(dhcpID, i), IdAt(dhcpID, j))
    ensures dhcpID + |hosts| <= TWO_TO_63 ==> hosts[i].mac != hosts[j].mac
  {
    IdAtValue(dhcpID, i);
    IdAtValue(dhcpID, j);
    assert IsEntry(net, mac, dhcpID, i, hosts[i]) && IsEntry(net, mac, dhcpID, j, hosts[j]);
    AddMacCollides(mac, IdAt(dhcpID, i), IdAt(dhcpID, j));
  }

  /** Nor an IP, exactly if there are no more entries than addresses. */
  lemma {:induction false} EntryIPsDistinct(net: Subnet, mac: Bytes, dhcpID: UInt, hosts: seq<Host>)
    requires IsSubnet(net) && AreEntries(net, mac, dhcpID, hosts)
    ensures OnePerIP(hosts) <==> |hosts| <= Pow2(net.bits)
  {
    var m, start := Pow2(net.bits), RangeOf(net).start;
    if |hosts| <= m {
      forall i, j | 0 <= i < j < |hosts| ensures hosts[i].ip != hosts[j].ip {
        assert IsEntry(net, mac, dhcpID, i, hosts[i]) && IsEntry(net, mac, dhcpID, j, hosts[j]);
        NthValue(net.bits, start, i);
        NthValue(net.bits, start, j);
      }
    } else {
      assert IsEntry(net, mac, dhcpID, 0, hosts[0]) && IsEntry(net, mac, dhcpID, m, hosts[m]);
      NthValue(net.bits, start, m);
    }
  }

  /** The entries lie in a good range exactly if they fit into it. */
  lemma {:induction false} EntriesInRange(net: Subnet, mac: Bytes, dhcpID: UInt, hosts: seq<Host>)
    requires IsSubnet(net) && AreEntries(net, mac, dhcpID, hosts) && net.address < LastUsable(net)
    ensures var range := RangeOf(net);
            (forall h :: h in hosts ==> InRange(range, h.ip)) <==> |hosts| <= range.end - range.start + 1
  {
    var range := RangeOf(net);
    var size := range.end - range.start + 1;
    RangeIsGood(net);
    RangeEndsBelow(net);
    if |hosts| <= size {
      forall h | h in hosts ensures InRange(range, h.ip) {
        var i :| 0 <= i < |hosts| && hosts[i] == h;
        assert IsEntry(net, mac, dhcpID, i, hosts[i]);
        NthValue(net.bits, range.start, i);
      }
    } else {
      assert IsEntry(net, mac, dhcpID, size, hosts[size]) && hosts[size] in hosts;
      NthValue(net.bits, range.start, size);
    }
  }

  lemma {:induction false} RangeEndsBelow(net: Subnet)
    requires IsSubnet(net) && net.address < LastUsable(net)
    ensures RangeOf(net).end + 1 < Pow2(net.bits)
  {
    RangeIsGood(net);
    NetworkFits(net.address, net.hostBits, net.bits);
    assert InRange(RangeOf(net), RangeOf(net).end);
  }

  // ---------------------------------------------------------------- agreement with AddDHCPHost

  function AsIPNet(net: Subnet): IPNet
    requires IsSubnet(net) && net.bits == 32
  {
    IPNet(net.address, net.hostBits)
  }

  /** The entry is the one AddDHCPHost would make for its identifier. */
  ghost predicate Agrees(net: Subnet, dhcpID: UInt, i: nat, h: Host)
    requires IsSubnet(net) && net.bits == 32
  {
    PairedEntry(AsIPNet(net), h, IdAt(dhcpID, i))
  }

  /**
   The number of the first address in the network: one more than the interface's own, unless that is
   the last of all.
   */
  function FirstId(net: Subnet): int {
    RangeOf(net).start - NetworkAddress(net.address, net.hostBits)
  }

  /** The number s, from the beginning of the network or negative from its end, stands for the address. */
  predicate IsNumberOf(net: Subnet, s: int, ip: nat) {
    var size := Pow2(net.hostBits);
    0 <= s + size < 2 * size && ip == NetworkAddress(net.address, net.hostBits) + (if s >= 0 then s else size + s)
  }

  lemma {:induction false} AgreesInNumbers(net: Subnet, dhcpID: UInt, i: nat, h: Host)
    requires IsSubnet(net) && net.bits == 32 && IsEntry(net, QEMU_BASE, dhcpID, i, h)
    ensures Agrees(net, dhcpID, i, h) <==> IsNumberOf(net, Signed(IdAt(dhcpID, i)), h.ip)
  {
  }

  /** What is known of the network in numbers. */
  lemma {:induction false} SubnetNumbers(net: Subnet)
    requires IsSubnet(net) && net.bits == 32
    ensures var size, base := Pow2(net.hostBits), NetworkAddress(net.address, net.hostBits);
            && Pow2(32) == 0x1_0000_0000 && 1 <= size && base + size <= 0x1_0000_0000
            && (size == 0x1_0000_0000 <==> net.hostBits == 32)
            && RangeOf(net).start < 0x1_0000_0000 && FirstId(net) <= size
            && (FirstId(net) < 0 ==> RangeOf(net).start == 0)
  {
    Pow2Values();
    NetworkFits(net.address, net.hostBits, 32);
    if net.hostBits < 32 {
      Pow2Grows(net.hostBits, 31);
      assert Pow2(32) == 2 * Pow2(31);
    }
  }

  /** The address of the entry that is k addresses into the network. */
  lemma {:induction false} EntryAddress(net: Subnet, dhcpID: UInt, i: nat, h: Host)
    requires IsSubnet(net) && net.bits == 32 && IsEntry(net, QEMU_BASE, dhcpID, i, h)
    requires RangeOf(net).start + i < 0x2_0000_0000
    ensures var k := NetworkAddress(net.address, net.hostBits) + FirstId(net) + i;
            h.ip == if k < 0x1_0000_0000 then k else k - 0x1_0000_0000
  {
    SubnetNumbers(net);
    NthValue(32, RangeOf(net).start, i);
  }

  /** The identifier that belongs to the first address, and its counterpart that counts from the network's end. */
  predicate StartsFromFirst(net: Subnet, dhcpID: UInt) {
    dhcpID == FirstId(net)
  }

  predicate StartsFromEnd(net: Subnet, dhcpID: UInt) {
    FirstId(net) >= 0 && dhcpID == FirstId(net) + TWO_TO_64 - Pow2(net.hostBits)
  }

  /** How far the identifiers and the addresses stay in step. */
  function InStep(net: Subnet, dhcpID: UInt): int {
    if StartsFromFirst(net, dhcpID) then Pow2(net.hostBits) - FirstId(net)
    else if !StartsFromEnd(net, dhcpID) then 0
    else if net.hostBits == 32 then 2 * Pow2(net.hostBits) - FirstId(net)
    else Pow2(net.hostBits) - FirstId(net)
  }

  lemma {:induction false} FirstAgrees(net: Subnet, dhcpID: UInt, h: Host)
    requires IsSubnet(net) && net.bits == 32 && IsEntry(net, QEMU_BASE, dhcpID, 0, h)
    ensures Agrees(net, dhcpID, 0, h) ==> StartsFromFirst(net, dhcpID) || StartsFromEnd(net, dhcpID)
  {
    SubnetNumbers(net);
    AgreesInNumbers(net, dhcpID, 0, h);
    EntryAddress(net, dhcpID, 0, h);
    IdAtValue(dhcpID, 0);
  }

  /** Counted from the network's beginning, the entries agree up to its end. */
  lemma {:induction false} FromFirstAgrees(net: Subnet, dhcpID: UInt, i: nat, h: Host)
    requires IsSubnet(net) && net.bits == 32 && IsEntry(net, QEMU_BASE, dhcpID, i, h)
    requires StartsFromFirst(net, dhcpID) && i <= InStep(net, dhcpID)
    ensures Agrees(net, dhcpID, i, h) <==> i < InStep(net, dhcpID)
  {
    SubnetNumbers(net);
    AgreesInNumbers(net, dhcpID, i, h);
    EntryAddress(net, dhcpID, i, h);
    IdAtValue(dhcpID, i);
  }

  /** Counted from its end, too; and once more around if the network is the whole address space. */
  lemma {:induction false} FromEndAgrees(net: Subnet, dhcpID: UInt, i: nat, h: Host)
    requires IsSubnet(net) && net.bits == 32 && IsEntry(net, QEMU_BASE, dhcpID, i, h)
    requires !StartsFromFirst(net, dhcpID) && StartsFromEnd(net, dhcpID) && i <= InStep(net, dhcpID)
    ensures Agrees(net, dhcpID, i, h) <==> i < InStep(net, dhcpID)
  {
    SubnetNumbers(net);
    AgreesInNumbers(net, dhcpID, i, h);
    IdAtValue(dhcpID, i);
    assert Signed(IdAt(dhcpID, i)) == FirstId(net) + i - Pow2(net.hostBits);
    if RangeOf(net).start + i < 0x2_0000_0000 {
      EntryAddress(net, dhcpID, i, h);
    }
  }

  /**
   All entries are the ones AddDHCPHost would make for their identifiers, exactly if the first
   identifier stands for the first address, and there are no more entries than stay in step with it.
   */
  lemma {:induction false} EntriesArePaired(net: Subnet, dhcpID: UInt, hosts: seq<Host>)
    requires IsSubnet(net) && net.bits == 32 && AreEntries(net, QEMU_BASE, dhcpID, hosts)
    ensures (forall i :: 0 <= i < |hosts| ==> Agrees(net, dhcpID, i, hosts[i]))
            <==> hosts == [] || |hosts| <= InStep(net, dhcpID)
  {
    if hosts != [] {
      assert IsEntry(net, QEMU_BASE, dhcpID, 0, hosts[0]);
      FirstAgrees(net, dhcpID, hosts[0]);
      if StartsFromFirst(net, dhcpID) || StartsFromEnd(net, dhcpID) {
        SubnetNumbers(net);
        forall i | 0 <= i < |hosts| && i <= InStep(net, dhcpID)
          ensures Agrees(net, dhcpID, i, hosts[i]) <==> i < InStep(net, dhcpID) {
          assert IsEntry(net, QEMU_BASE, dhcpID, i, hosts[i]);
          if StartsFromFirst(net, dhcpID) {
            FromFirstAgrees(net, dhcpID, i, hosts[i]);
          } else {
            FromEndAgrees(net, dhcpID, i, hosts[i]);
          }
        }
        var last := InStep(net, dhcpID);
        assert last < |hosts| && last >= 0 ==> !Agrees(net, dhcpID, last, hosts[last]);
      }
    }
  }

  /** A network made that way starts with paired entries, none of which share an address. */
  lemma {:induction false} NewNetworkPaired(net: Subnet, dhcpID: UInt, hosts: seq<Host>)
    requires IsSubnet(net) && net.bits == 32 && AreEntries(net, QEMU_BASE, dhcpID, hosts)
    requires StartsFromFirst(net, dhcpID) && |hosts| <= InStep(net, dhcpID)
    ensures Paired(AsIPNet(net), hosts, TWO_TO_63) && OnePerIP(hosts)
  {
    EntriesArePaired(net, dhcpID, hosts);
    SubnetNumbers(net);
    forall h | h in hosts ensures IsPaired(AsIPNet(net), h, TWO_TO_63) {
      var i :| 0 <= i < |hosts| && hosts[i] == h;
      IdAtValue(dhcpID, i);
      assert Agrees(net, dhcpID, i, hosts[i]);
    }
    forall i, j | 0 <= i < j < |hosts| ensures hosts[i].mac != hosts[j].mac {
      EntryMacsDistinct(net, QEMU_BASE, dhcpID, hosts, i, j);
    }
    SmallIdsUnshared(AsIPNet(net), hosts);
  }
}

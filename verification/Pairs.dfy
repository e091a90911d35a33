/** Host entries as pairs: which MAC and which address belong to one identifier, and when two clash. */
module Pairs {
  import opened Wrappers
  import opened Addresses
  import opened Libvirt
  import opened Dhcp

  /** What an entry that pairs the addresses of an identifier looks like in numbers. */
  lemma {:induction false} PairedNumbers(net: IPNet, h: Host, x: UInt)
    requires PairedEntry(net, h, x)
    ensures var size := Pow2(net.hostBits);
            && 1 <= size <= 0x1_0000_0000 && 0 <= Signed(x) + size < 2 * size
            && FromBytes(h.mac) == 0x5254_0000_0000 + Signed(x)
            && h.ip == NetworkAddress(net.address, net.hostBits)
                       + (if Signed(x) >= 0 then Signed(x) else size + Signed(x))
  {
    Pow2Values();
    Pow2Grows(net.hostBits, 32);
    QemuBaseValue();
    AddMacValue(QEMU_BASE, x);
  }

  /** And an identifier in that range has such an entry. */
  lemma {:induction false} NumbersPaired(net: IPNet, x: UInt)
    requires 0 <= Signed(x) + Pow2(net.hostBits) < 2 * Pow2(net.hostBits)
    ensures QemuFits(x) && PairedIP(net, x).Some? && PairedEntry(net, Host(QemuMAC(x), PairedIP(net, x).value), x)
  {
    Pow2Values();
    Pow2Grows(net.hostBits, 32);
    QemuBaseValue();
    AddMacValue(QEMU_BASE, x);
  }

  /**
   The address paired with an identifier is the one of the interface's own network whose number, modulo
   the network's size, is the identifier; there is one exactly for numbers that reach from the network's
   beginning or its end to an address in it.
   */
  lemma {:induction false} PairedIPExactly(net: IPNet, x: UInt)
    ensures var size, n := Pow2(net.hostBits), Signed(x);
            && (PairedIP(net, x).Some? <==> 0 <= n + size < 2 * size)
            && (PairedIP(net, x).Some? ==>
                  var ip := PairedIP(net, x).value;
                  ip / size == net.address / size && ip % size == n % size)
  {
    var size, n := Pow2(net.hostBits), Signed(x);
    if PairedIP(net, x).Some? {
      var ip := PairedIP(net, x).value;
      var m := NetworkAddressMultiple(net.address, net.hostBits);
      RemainderIs(net.address, size, m);
      RemainderIs(ip, size, m);
      NumberInNetwork(size, n);
    }
  }

  /** Identifier 1, which no machine may have, is the interface's own exactly if that has the first address. */
  lemma {:induction false} ReservedId(net: IPNet)
    ensures PairedIP(net, 1) == Some(net.address) <==> net.hostBits > 0 && net.address % Pow2(net.hostBits) == 1
  {
    NetworkAddressValue(net.address, net.hostBits);
    if net.hostBits > 0 {
      TwoOrMore(net.hostBits);
    }
  }

  lemma {:induction false} NumberInNetwork(size: nat, n: int)
    requires 0 <= n + size < 2 * size
    ensures n % size == if n >= 0 then n else n + size
  {
    if n >= 0 {
      RemainderIs(n, size, 0);
    } else {
      RemainderIs(n + size, size, 0);
      assert (n + size) % size == n % size by {
        assert n == size * (n / size) + n % size;
        assert n + size == size * (n / size + 1) + n % size;
      }
    }
  }

  /** Two identifiers for one address: one counts from the beginning of the network, the other from its end. */
  predicate Counterparts(hostBits: HostBits, x: UInt, y: UInt) {
    Abs(x - y) == TWO_TO_64 - Pow2(hostBits)
  }

  /** A MAC belongs to one identifier; an address to one identifier and its counterpart. */
  lemma {:induction false} PairedExactly(net: IPNet, a: Host, b: Host, x: UInt, y: UInt)
    requires PairedEntry(net, a, x) && PairedEntry(net, b, y)
    ensures a.mac == b.mac <==> x == y
    ensures a.ip == b.ip <==> x == y || Counterparts(net.hostBits, x, y)
  {
    PairedNumbers(net, a, x);
    PairedNumbers(net, b, y);
  }

  function Counterpart(hostBits: HostBits, x: UInt): UInt {
    if x < TWO_TO_63 then (x - Pow2(hostBits)) % TWO_TO_64 else (x + Pow2(hostBits)) % TWO_TO_64
  }

  lemma {:induction false} CounterpartValue(hostBits: HostBits, x: UInt)
    requires 0 <= Signed(x) + Pow2(hostBits) < 2 * Pow2(hostBits) && Pow2(hostBits) <= 0x1_0000_0000
    ensures var y, size := Counterpart(hostBits, x), Pow2(hostBits);
            Signed(y) == (if Signed(x) >= 0 then Signed(x) - size else Signed(x) + size) && Counterparts(hostBits, x, y)
  {
  }

  lemma {:induction false} OnlyCounterpart(hostBits: HostBits, x: UInt, z: UInt)
    requires 0 <= Signed(x) + Pow2(hostBits) < 2 * Pow2(hostBits) && Pow2(hostBits) <= 0x1_0000_0000
    requires 0 <= Signed(z) + Pow2(hostBits) < 2 * Pow2(hostBits) && Counterparts(hostBits, x, z)
    ensures z == Counterpart(hostBits, x)
  {
    CounterpartValue(hostBits, x);
  }

  /** The counterpart of an identifier that has an address has the same address. */
  lemma {:induction false} CounterpartPaired(net: IPNet, h: Host, x: UInt)
    requires PairedEntry(net, h, x)
    ensures var y := Counterpart(net.hostBits, x); QemuFits(y) && PairedEntry(net, Host(QemuMAC(y), h.ip), y)
  {
    PairedNumbers(net, h, x);
    CounterpartValue(net.hostBits, x);
    var y := Counterpart(net.hostBits, x);
    NumbersPaired(net, y);
    PairedNumbers(net, Host(QemuMAC(y), PairedIP(net, y).value), y);
  }

  // ---------------------------------------------------------------- paired entries

  /** The entry pairs the addresses of an identifier below the bound. */
  ghost predicate IsPaired(net: IPNet, h: Host, bound: nat) {
    exists id: UInt :: id < bound && PairedEntry(net, h, id)
  }

  ghost predicate OnePerMac(hosts: seq<Host>) {
    forall i, j :: 0 <= i < j < |hosts| ==> hosts[i].mac != hosts[j].mac
  }

  ghost predicate OnePerIP(hosts: seq<Host>) {
    forall i, j :: 0 <= i < j < |hosts| ==> hosts[i].ip != hosts[j].ip
  }

  /** Every entry pairs the addresses of one identifier, and no two share a MAC. */
  ghost predicate Paired(net: IPNet, hosts: seq<Host>, bound: nat) {
    (forall h :: h in hosts ==> IsPaired(net, h, bound)) && OnePerMac(hosts)
  }

  ghost predicate NoCounterparts(net: IPNet, hosts: seq<Host>) {
    forall a, b, x: UInt, y: UInt :: a in hosts && b in hosts && PairedEntry(net, a, x) && PairedEntry(net, b, y) ==>
      !Counterparts(net.hostBits, x, y)
  }

  /** Of paired entries no two share an address, exactly if no two are for counterparts. */
  lemma {:induction false} UnsharedExactly(net: IPNet, hosts: seq<Host>, bound: nat)
    requires Paired(net, hosts, bound)
    ensures OnePerIP(hosts) <==> NoCounterparts(net, hosts)
  {
    if NoCounterparts(net, hosts) {
      forall i, j | 0 <= i < j < |hosts| ensures hosts[i].ip != hosts[j].ip {
        assert hosts[i] in hosts && hosts[j] in hosts;
        assert IsPaired(net, hosts[i], bound) && IsPaired(net, hosts[j], bound);
        var x: UInt :| x < bound && PairedEntry(net, hosts[i], x);
        var y: UInt :| y < bound && PairedEntry(net, hosts[j], y);
        PairedExactly(net, hosts[i], hosts[j], x, y);
      }
    }
    if OnePerIP(hosts) {
      forall a, b, x: UInt, y: UInt | a in hosts && b in hosts && PairedEntry(net, a, x) && PairedEntry(net, b, y)
        ensures !Counterparts(net.hostBits, x, y) {
        PairedExactly(net, a, b, x, y);
        PairedNumbers(net, a, x);
        var i :| 0 <= i < |hosts| && hosts[i] == a;
        var j :| 0 <= j < |hosts| && hosts[j] == b;
        assert i != j ==> a.ip != b.ip;
      }
    }
  }

  /** Identifiers below 2^63 have no counterparts among each other. */
  lemma {:induction false} SmallIdsUnshared(net: IPNet, hosts: seq<Host>)
    requires Paired(net, hosts, TWO_TO_63)
    ensures OnePerIP(hosts)
  {
    forall i, j | 0 <= i < j < |hosts| ensures hosts[i].ip != hosts[j].ip {
      assert hosts[i] in hosts && hosts[j] in hosts;
      assert IsPaired(net, hosts[i], TWO_TO_63) && IsPaired(net, hosts[j], TWO_TO_63);
      var x: UInt :| x < TWO_TO_63 && PairedEntry(net, hosts[i], x);
      var y: UInt :| y < TWO_TO_63 && PairedEntry(net, hosts[j], y);
      PairedExactly(net, hosts[i], hosts[j], x, y);
      PairedNumbers(net, hosts[i], x);
    }
  }

  ghost predicate HasEntry(hosts: seq<Host>, id: UInt) {
    QemuFits(id) && HasMac(hosts, QemuMAC(id))
  }

  /** One entry more keeps all addresses apart, exactly if the identifier's counterpart has no entry. */
  lemma {:induction false} AddKeepsUnsharedExactly(net: IPNet, hosts: seq<Host>, bound: nat, h: Host, x: UInt)
    requires Paired(net, hosts, bound) && OnePerIP(hosts) && FreeId(hosts, x) && PairedEntry(net, h, x)
    ensures OnePerIP(hosts + [h]) <==> !HasEntry(hosts, Counterpart(net.hostBits, x))
  {
    OldAndNew(net, hosts, bound, h, x);
    var all := hosts + [h];
    assert all[|hosts|] == h;
    if OnePerIP(all) {
      forall e | e in hosts ensures e.ip != h.ip {
        var i :| 0 <= i < |hosts| && hosts[i] == e;
        assert all[i] == e;
      }
    }
  }

  /** The entry with the counterpart's MAC has the same address. */
  lemma {:induction false} SharesAddress(net: IPNet, e: Host, h: Host, bound: nat, x: UInt)
    requires IsPaired(net, e, bound) && PairedEntry(net, h, x)
    requires QemuFits(Counterpart(net.hostBits, x)) && e.mac == QemuMAC(Counterpart(net.hostBits, x))
    ensures e.ip == h.ip
  {
    var y := Counterpart(net.hostBits, x);
    CounterpartPaired(net, h, x);
    var z: UInt :| z < bound && PairedEntry(net, e, z);
    PairedExactly(net, e, Host(QemuMAC(y), h.ip), z, y);
  }

  /** Another entry with the same address has the MAC of the identifier or of its counterpart. */
  lemma {:induction false} IsCounterpart(net: IPNet, e: Host, h: Host, bound: nat, x: UInt)
    requires IsPaired(net, e, bound) && PairedEntry(net, h, x) && e.ip == h.ip
    ensures var y := Counterpart(net.hostBits, x);
            QemuFits(y) && (e.mac == h.mac || e.mac == QemuMAC(y))
  {
    CounterpartPaired(net, h, x);
    var z: UInt :| z < bound && PairedEntry(net, e, z);
    PairedExactly(net, e, h, z, x);
    PairedNumbers(net, e, z);
    PairedNumbers(net, h, x);
    if z != x {
      OnlyCounterpart(net.hostBits, x, z);
    }
  }

  lemma {:induction false} BothPaired(net: IPNet, a: Host, b: Host, x: UInt, y: UInt)
    requires PairedEntry(net, a, x) && PairedEntry(net, b, y) && x != y
    ensures Paired(net, [a, b], TWO_TO_64) && a.mac != b.mac
    ensures a.ip == b.ip ==> !OnePerIP([a, b])
  {
    PairedExactly(net, a, b, x, y);
    assert IsPaired(net, a, TWO_TO_64) && IsPaired(net, b, TWO_TO_64);
    assert [a, b][0] == a && [a, b][1] == b;
  }

  /** It does happen: in every network with a host bit, two identifiers that are both given explicitly and both free. */
  lemma {:induction false} TwoIdsOneAddress(w: string, net: IPNet)
    returns (x: UInt, y: UInt, s1: map<string, Network>, s2: map<string, Network>)
    requires net.hostBits >= 1
    ensures HostsAdded(map[w := Network(Some(net), [])], s1, w, x, 1, true) && HostsAdded(s1, s2, w, y, 1, true)
    ensures w in s2 && Paired(net, s2[w].hosts, TWO_TO_64) && !OnePerIP(s2[w].hosts)
  {
    var a, b := LastAddress(net);
    x, y := Pow2(net.hostBits) - 1, TWO_TO_64 - 1;
    BothPaired(net, a, b, x, y);
    s1, s2 := map[w := Network(Some(net), [a])], map[w := Network(Some(net), [a, b])];
    OneHostAdded(w, net, [], a, x);
    FindInOne(a.mac, a.ip, b.mac);
    OneHostAdded(w, net, [a], b, y);
    assert [a] + [b] == [a, b] && [] + [a] == [a];
  }

  lemma {:induction false} TwoOrMore(hostBits: HostBits)
    requires hostBits >= 1
    ensures 2 <= Pow2(hostBits) <= 0x1_0000_0000
  {
    Pow2Values();
    Pow2Grows(hostBits, 32);
  }

  /** The last address of a network, counted from its beginning and from its end. */
  lemma {:induction false} LastAddress(net: IPNet) returns (a: Host, b: Host)
    requires net.hostBits >= 1
    ensures 2 <= Pow2(net.hostBits) <= 0x1_0000_0000
    ensures PairedEntry(net, a, Pow2(net.hostBits) - 1) && PairedEntry(net, b, TWO_TO_64 - 1) && a.ip == b.ip
  {
    TwoOrMore(net.hostBits);
    var y: UInt := TWO_TO_64 - 1;
    var x := Counterpart(net.hostBits, y);
    assert Signed(y) == -1;
    CounterpartValue(net.hostBits, y);
    NumbersPaired(net, y);
    b := Host(QemuMAC(y), PairedIP(net, y).value);
    CounterpartPaired(net, b, y);
    a := Host(QemuMAC(x), b.ip);
  }

  lemma {:induction false} OneHostAdded(w: string, net: IPNet, hosts: seq<Host>, h: Host, id: UInt)
    requires id != 0 && FreeId(hosts, id) && PairedEntry(net, h, id)
    ensures HostsAdded(map[w := Network(Some(net), hosts)], map[w := Network(Some(net), hosts + [h])], w, id, 1, true)
  {
    var before, after := Network(Some(net), hosts), Network(Some(net), hosts + [h]);
    IdAtValue(id, 0);
    assert AllFree(hosts, id, 1);
    assert AddedFrom(before, after.hosts, id, 1);
  }

  // ---------------------------------------------------------------- adding and removing paired entries

  lemma {:induction false} AppendPaired(net: IPNet, hosts: seq<Host>, bound: nat, h: Host)
    requires Paired(net, hosts, bound) && IsPaired(net, h, bound) && forall x :: x in hosts ==> x.mac != h.mac
    ensures Paired(net, hosts + [h], bound)
  {
    forall i | 0 <= i < |hosts| ensures hosts[i].mac != h.mac {
      assert hosts[i] in hosts;
    }
  }

  lemma {:induction false} FreeHasNone(hosts: seq<Host>, id: UInt, h: Host)
    requires FreeId(hosts, id) && h.mac == QemuMAC(id)
    ensures forall x :: x in hosts ==> x.mac != h.mac
  {
    FoundIffPresent(hosts, h.mac);
  }

  /** An identifier's entry keeps the entries paired, exactly if the identifier was free. */
  lemma {:induction false} AddPairedExactly(net: IPNet, hosts: seq<Host>, bound: nat, h: Host, id: UInt)
    requires Paired(net, hosts, bound) && id < bound && PairedEntry(net, h, id)
    ensures Paired(net, hosts + [h], bound) <==> FreeId(hosts, id)
  {
    assert IsPaired(net, h, bound);
    if FreeId(hosts, id) {
      FreeHasNone(hosts, id, h);
      AppendPaired(net, hosts, bound, h);
    } else {
      FoundIffPresent(hosts, h.mac);
      var k :| 0 <= k < |hosts| && hosts[k].mac == h.mac;
      var all := hosts + [h];
      assert all[k] == hosts[k] && all[|hosts|] == h;
    }
  }

  /** The entry of the next identifier shares its MAC neither with the old entries nor with the new ones. */
  lemma {:induction false} NotYetAdded(net: IPNet, hosts: seq<Host>, front: seq<Host>, id: UInt, n: nat, h: Host)
    requires n < TWO_TO_64 && FreeId(hosts, IdAt(id, n))
    requires AddedFrom(Network(Some(net), hosts), front, id, n) && PairedEntry(net, h, IdAt(id, n))
    ensures forall x :: x in front ==> x.mac != h.mac
  {
    FreeHasNone(hosts, IdAt(id, n), h);
    forall i | 0 <= i < |front| ensures front[i].mac != h.mac {
      if i < |hosts| {
        assert hosts[i] == front[..|hosts|][i];
      } else {
        var k := i - |hosts|;
        IdAtValue(id, k);
        IdAtValue(id, n);
        PairedExactly(net, front[i], h, IdAt(id, k), IdAt(id, n));
      }
    }
  }

  ghost predicate IdsBelow(id: UInt, n: nat, bound: nat) {
    forall k :: 0 <= k < n ==> IdAt(id, k) < bound
  }

  lemma {:induction false} AddedPaired(net: IPNet, hosts: seq<Host>, hosts': seq<Host>, bound: nat, id: UInt, n: nat)
    requires Paired(net, hosts, bound) && n <= TWO_TO_64 && AllFree(hosts, id, n) && IdsBelow(id, n, bound)
    requires AddedFrom(Network(Some(net), hosts), hosts', id, n)
    ensures Paired(net, hosts', bound)
    decreases n
  {
    if n > 0 {
      var k := |hosts'| - 1;
      var front, h := hosts'[..k], hosts'[k];
      assert front[..|hosts|] == hosts'[..|hosts|];
      AddedPaired(net, hosts, front, bound, id, n - 1);
      assert PairedEntry(net, h, IdAt(id, n - 1)) && FreeId(hosts, IdAt(id, n - 1));
      NotYetAdded(net, hosts, front, id, n - 1, h);
      assert IsPaired(net, h, bound);
      AppendPaired(net, front, bound, h);
      assert hosts' == front + [h];
    } else {
      assert hosts' == hosts'[..|hosts|];
    }
  }

  lemma {:induction false} OnlyOnce(hosts: seq<Host>, h: Host)
    requires OnePerMac(hosts) || OnePerIP(hosts)
    ensures multiset(hosts)[h] <= 1
  {
    if h in hosts {
      var k :| 0 <= k < |hosts| && hosts[k] == h;
      assert hosts == hosts[..k] + [h] + hosts[k + 1..];
      assert h !in hosts[..k] && h !in hosts[k + 1..];
    }
  }

  lemma {:induction false} TwiceIsTwo(hosts: seq<Host>, i: nat, j: nat)
    requires i < j < |hosts| && hosts[i] == hosts[j]
    ensures multiset(hosts)[hosts[i]] >= 2
  {
    assert hosts == hosts[..j] + [hosts[j]] + hosts[j + 1..];
    assert hosts[..j][i] == hosts[i];
  }

  /** Entries that are left stay apart. */
  lemma {:induction false} FewerOnePerMac(hosts: seq<Host>, hosts': seq<Host>)
    requires OnePerMac(hosts) && Fewer(hosts, hosts')
    ensures OnePerMac(hosts')
  {
    forall i, j | 0 <= i < j < |hosts'| ensures hosts'[i].mac != hosts'[j].mac {
      var a, b := hosts'[i], hosts'[j];
      if a == b {
        TwiceIsTwo(hosts', i, j);
        OnlyOnce(hosts, a);
      } else {
        assert a in multiset(hosts') && b in multiset(hosts');
        var k :| 0 <= k < |hosts| && hosts[k] == a;
        var l :| 0 <= l < |hosts| && hosts[l] == b;
        assert k < l || l < k;
      }
    }
  }

  lemma {:induction false} FewerOnePerIP(hosts: seq<Host>, hosts': seq<Host>)
    requires OnePerIP(hosts) && Fewer(hosts, hosts')
    ensures OnePerIP(hosts')
  {
    forall i, j | 0 <= i < j < |hosts'| ensures hosts'[i].ip != hosts'[j].ip {
      var a, b := hosts'[i], hosts'[j];
      if a == b {
        TwiceIsTwo(hosts', i, j);
        OnlyOnce(hosts, a);
      } else {
        assert a in multiset(hosts') && b in multiset(hosts');
        var k :| 0 <= k < |hosts| && hosts[k] == a;
        var l :| 0 <= l < |hosts| && hosts[l] == b;
        assert k < l || l < k;
      }
    }
  }

  lemma {:induction false} FewerPaired(net: IPNet, hosts: seq<Host>, hosts': seq<Host>, bound: nat)
    requires Paired(net, hosts, bound) && Fewer(hosts, hosts')
    ensures Paired(net, hosts', bound)
  {
    FewerOnePerMac(hosts, hosts');
    forall h | h in hosts' ensures IsPaired(net, h, bound) {
      assert h in multiset(hosts');
    }
  }

  /** None of n new identifiers has a counterpart with an entry, or among the others. */
  ghost predicate Unclashing(net: IPNet, hosts: seq<Host>, id: UInt, n: nat) {
    && (forall k :: 0 <= k < n ==> !HasEntry(hosts, Counterpart(net.hostBits, IdAt(id, k))))
    && (forall j, k :: 0 <= j < k < n ==> !Counterparts(net.hostBits, IdAt(id, j), IdAt(id, k)))
  }

  lemma {:induction false} NewEntry(net: IPNet, hosts: seq<Host>, hosts': seq<Host>, id: UInt, n: nat, k: nat)
    requires AddedFrom(Network(Some(net), hosts), hosts', id, n) && k < n
    ensures PairedEntry(net, hosts'[|hosts| + k], IdAt(id, k))
  {
    assert IdAt(id, |hosts| + k - |hosts|) == IdAt(id, k);
  }

  /** A new entry shares no address with an old one, exactly if its identifier's counterpart has no entry. */
  lemma {:induction false} OldAndNew(net: IPNet, hosts: seq<Host>, bound: nat, h: Host, x: UInt)
    requires Paired(net, hosts, bound) && FreeId(hosts, x) && PairedEntry(net, h, x)
    ensures (forall e :: e in hosts ==> e.ip != h.ip) <==> !HasEntry(hosts, Counterpart(net.hostBits, x))
  {
    var y := Counterpart(net.hostBits, x);
    CounterpartPaired(net, h, x);
    FoundIffPresent(hosts, QemuMAC(y));
    if HasEntry(hosts, y) {
      var e :| e in hosts && e.mac == QemuMAC(y);
      SharesAddress(net, e, h, bound, x);
    } else {
      FreeHasNone(hosts, x, h);
      forall e | e in hosts ensures e.ip != h.ip {
        if e.ip == h.ip {
          IsCounterpart(net, e, h, bound, x);
        }
      }
    }
  }

  /** Two new entries share no address, exactly if their identifiers are no counterparts. */
  lemma {:induction false} TwoNew(net: IPNet, hosts: seq<Host>, hosts': seq<Host>, id: UInt, n: nat, j: nat, k: nat)
    requires AddedFrom(Network(Some(net), hosts), hosts', id, n) && j < k < n <= TWO_TO_64
    ensures hosts'[|hosts| + j].ip != hosts'[|hosts| + k].ip
            <==> !Counterparts(net.hostBits, IdAt(id, j), IdAt(id, k))
  {
    NewEntry(net, hosts, hosts', id, n, j);
    NewEntry(net, hosts, hosts', id, n, k);
    IdAtValue(id, j);
    IdAtValue(id, k);
    PairedExactly(net, hosts'[|hosts| + j], hosts'[|hosts| + k], IdAt(id, j), IdAt(id, k));
  }

  lemma {:induction false} OneNew(net: IPNet, hosts: seq<Host>, hosts': seq<Host>, bound: nat, id: UInt, n: nat, k: nat)
    requires Paired(net, hosts, bound) && AllFree(hosts, id, n)
    requires AddedFrom(Network(Some(net), hosts), hosts', id, n) && k < n
    ensures (forall e :: e in hosts ==> e.ip != hosts'[|hosts| + k].ip)
            <==> !HasEntry(hosts, Counterpart(net.hostBits, IdAt(id, k)))
  {
    NewEntry(net, hosts, hosts', id, n, k);
    assert FreeId(hosts, IdAt(id, k));
    OldAndNew(net, hosts, bound, hosts'[|hosts| + k], IdAt(id, k));
  }

  /** Any number of entries more keep all addresses apart, exactly if no identifiers among them clash. */
  lemma {:induction false} AddedUnsharedExactly(net: IPNet, hosts: seq<Host>, hosts': seq<Host>, bound: nat, id: UInt,
                                                n: nat)
    requires Paired(net, hosts, bound) && OnePerIP(hosts) && AllFree(hosts, id, n) && n <= TWO_TO_64
    requires AddedFrom(Network(Some(net), hosts), hosts', id, n)
    ensures OnePerIP(hosts') <==> Unclashing(net, hosts, id, n)
  {
    if Unclashing(net, hosts, id, n) {
      AddedUnshared(net, hosts, hosts', bound, id, n);
    }
    if OnePerIP(hosts') {
      SharedNothing(net, hosts, hosts', bound, id, n);
    }
  }

  lemma {:induction false} OldStay(net: IPNet, hosts: seq<Host>, hosts': seq<Host>, id: UInt, n: nat, i: nat)
    requires AddedFrom(Network(Some(net), hosts), hosts', id, n) && i < |hosts|
    ensures hosts'[i] == hosts[i] && hosts[i] in hosts
  {
    assert hosts'[i] == hosts'[..|hosts|][i];
  }

  lemma {:induction false} NewApartFromOld(net: IPNet, hosts: seq<Host>, hosts': seq<Host>, bound: nat, id: UInt,
                                           n: nat, i: nat, k: nat)
    requires Paired(net, hosts, bound) && AllFree(hosts, id, n)
    requires AddedFrom(Network(Some(net), hosts), hosts', id, n) && Unclashing(net, hosts, id, n)
    requires i < |hosts| && k < n
    ensures hosts'[i].ip != hosts'[|hosts| + k].ip
  {
    OneNew(net, hosts, hosts', bound, id, n, k);
    OldStay(net, hosts, hosts', id, n, i);
  }

  lemma {:induction false} NewApartFromNew(net: IPNet, hosts: seq<Host>, hosts': seq<Host>, id: UInt, n: nat, j: nat,
                                           k: nat)
    requires AddedFrom(Network(Some(net), hosts), hosts', id, n) && Unclashing(net, hosts, id, n)
    requires j < k < n <= TWO_TO_64
    ensures hosts'[|hosts| + j].ip != hosts'[|hosts| + k].ip
  {
    TwoNew(net, hosts, hosts', id, n, j, k);
  }

  /** Of two entries, at least one of them new. */
  lemma {:induction false} NewApart(net: IPNet, hosts: seq<Host>, hosts': seq<Host>, bound: nat, id: UInt, n: nat,
                                    i: nat, j: nat)
    requires Paired(net, hosts, bound) && AllFree(hosts, id, n) && n <= TWO_TO_64
    requires AddedFrom(Network(Some(net), hosts), hosts', id, n) && Unclashing(net, hosts, id, n)
    requires i < j < |hosts'| && |hosts| <= j
    ensures hosts'[i].ip != hosts'[j].ip
  {
    var m := |hosts|;
    if m <= i {
      NewApartFromNew(net, hosts, hosts', id, n, i - m, j - m);
    } else {
      NewApartFromOld(net, hosts, hosts', bound, id, n, i, j - m);
    }
  }

  lemma {:induction false} AddedUnshared(net: IPNet, hosts: seq<Host>, hosts': seq<Host>, bound: nat, id: UInt, n: nat)
    requires Paired(net, hosts, bound) && OnePerIP(hosts) && AllFree(hosts, id, n) && n <= TWO_TO_64
    requires AddedFrom(Network(Some(net), hosts), hosts', id, n) && Unclashing(net, hosts, id, n)
    ensures OnePerIP(hosts')
  {
    forall i, j | 0 <= i < j < |hosts'| ensures hosts'[i].ip != hosts'[j].ip {
      if j < |hosts| {
        OldStay(net, hosts, hosts', id, n, i);
        OldStay(net, hosts, hosts', id, n, j);
      } else {
        NewApart(net, hosts, hosts', bound, id, n, i, j);
      }
    }
  }

  lemma {:induction false} SharedNothing(net: IPNet, hosts: seq<Host>, hosts': seq<Host>, bound: nat, id: UInt, n: nat)
    requires Paired(net, hosts, bound) && AllFree(hosts, id, n) && n <= TWO_TO_64
    requires AddedFrom(Network(Some(net), hosts), hosts', id, n) && OnePerIP(hosts')
    ensures Unclashing(net, hosts, id, n)
  {
    var m := |hosts|;
    forall k | 0 <= k < n ensures !HasEntry(hosts, Counterpart(net.hostBits, IdAt(id, k))) {
      OneNew(net, hosts, hosts', bound, id, n, k);
      forall e | e in hosts ensures e.ip != hosts'[m + k].ip {
        var i :| 0 <= i < m && hosts[i] == e;
        OldStay(net, hosts, hosts', id, n, i);
      }
    }
    forall j, k | 0 <= j < k < n ensures !Counterparts(net.hostBits, IdAt(id, j), IdAt(id, k)) {
      TwoNew(net, hosts, hosts', id, n, j, k);
    }
  }
}

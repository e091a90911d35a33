/**
 Host entries over whole runs: an identifier always gets the same MAC and the same address, whatever
 machines come and go and whichever calls fail.
 */
module Pairing {
  import opened Wrappers
  import opened Volumes
  import opened Addresses
  import opened Libvirt
  import opened Dhcp
  import opened Pairs
  import opened Removal
  import opened Machines
  import opened Interruptions
  import opened Histories

  /** The entries of the access network are paired. */
  ghost predicate PairedNetwork(s: State, w: string, bound: nat) {
    w in s.networks && s.networks[w].ipNet.Some? ==>
      Paired(s.networks[w].ipNet.value, s.networks[w].hosts, bound)
  }

  ghost predicate UnsharedNetwork(s: State, w: string) {
    w in s.networks ==> OnePerIP(s.networks[w].hosts)
  }

  /** New entries are asked for by identifiers given explicitly, which are below the bound. */
  ghost predicate Explicit(op: Op, bound: nat) {
    match op
    case StartMachine(cfg) => cfg.staticDhcp || 0 < cfg.id < bound
    case AddEntries(id, count) => IdsBelow(id, count, bound)
    case _ => true
  }

  /** None of the identifiers asked for shares its address with another one of them, or with one that has an entry. */
  ghost predicate ClashFree(s: State, w: string, op: Op) {
    w in s.networks && s.networks[w].ipNet.Some? ==>
      var net, hosts := s.networks[w].ipNet.value, s.networks[w].hosts;
      match op
      case StartMachine(cfg) => cfg.staticDhcp || !HasEntry(hosts, Counterpart(net.hostBits, cfg.id))
      case AddEntries(id, count) => Unclashing(net, hosts, id, count)
      case _ => true
  }

  ghost predicate SameIPNet(s: State, s': State, w: string) {
    (w in s.networks <==> w in s'.networks) && (w in s.networks ==> s'.networks[w].ipNet == s.networks[w].ipNet)
  }

  lemma {:induction false} FewerStaysPaired(s: State, s': State, w: string, bound: nat)
    requires PairedNetwork(s, w, bound) && FewerEntries(s.networks, s'.networks)
    ensures PairedNetwork(s', w, bound) && SameIPNet(s, s', w)
  {
    if w in s.networks && s.networks[w].ipNet.Some? {
      FewerPaired(s.networks[w].ipNet.value, s.networks[w].hosts, s'.networks[w].hosts, bound);
    }
  }

  lemma {:induction false} MacRemovedIsFewer(before: map<string, Network>, after: map<string, Network>, w: string,
                                             mac: Bytes)
    requires MacRemoved(before, after, w, mac)
    ensures FewerEntries(before, after)
  {
  }

  /** Operations that add no entries. */
  lemma {:induction false} OthersFewer(s: State, w: string, digest: Vol -> Hash, op: Op, s': State, del: bool)
    requires Step(s, w, digest, op, s', del) && !op.StartMachine? && !op.AddEntries?
    ensures FewerEntries(s.networks, s'.networks)
  {
    match op
    case RemoveMachine(name, removeDHCP, removeBoot) =>
    case CommitMachineTo(name, cfg) =>
      CommitOutcomeFewer(s, digest, name, cfg, s', del);
    case RemoveEntries(mac) =>
      MacRemovedIsFewer(s.networks, s'.networks, w, mac);
    case _ =>
  }

  /** The entry a start makes, if it gets that far; an identifier given explicitly was free. */
  lemma {:induction false} StartedEntry(s: State, w: string, cfg: VMConfig, p: Progress, s': State)
    requires Started(s, w, cfg, p, s') && p.Defined? && p.hosted
    ensures w in s.networks && s.networks[w].ipNet.Some? && QemuFits(p.id)
    ensures PairedIP(s.networks[w].ipNet.value, p.id).Some?
    ensures cfg.id != 0 ==> p.id == cfg.id && FreeId(s.networks[w].hosts, p.id)
    ensures var net := s.networks[w].ipNet.value;
            var h := Host(QemuMAC(p.id), PairedIP(net, p.id).value);
            && PairedEntry(net, h, p.id)
            && s'.networks == s.networks[w := s.networks[w].(hosts := s.networks[w].hosts + [h])]
  {
  }

  /** A start keeps the entries paired, exactly if the identifier it was given, or found, had no entry. */
  lemma {:induction false} StartedPairedExactly(s: State, w: string, cfg: VMConfig, p: Progress, s': State, bound: nat)
    requires Started(s, w, cfg, p, s') && PairedNetwork(s, w, bound) && p.Defined? && p.hosted && p.id < bound
    ensures w in s.networks && (PairedNetwork(s', w, bound) <==> FreeId(s.networks[w].hosts, p.id))
  {
    StartedEntry(s, w, cfg, p, s');
    var net := s.networks[w].ipNet.value;
    AddPairedExactly(net, s.networks[w].hosts, bound, Host(QemuMAC(p.id), PairedIP(net, p.id).value), p.id);
  }

  lemma {:induction false} StartedPaired(s: State, w: string, cfg: VMConfig, p: Progress, s': State, bound: nat)
    requires Started(s, w, cfg, p, s') && PairedNetwork(s, w, bound) && Explicit(StartMachine(cfg), bound)
    ensures PairedNetwork(s', w, bound) && SameIPNet(s, s', w)
    ensures UnsharedNetwork(s, w) && ClashFree(s, w, StartMachine(cfg)) ==> UnsharedNetwork(s', w)
  {
    if p.Defined? && p.hosted {
      StartedEntry(s, w, cfg, p, s');
      StartedPairedExactly(s, w, cfg, p, s', bound);
      var net, hosts := s.networks[w].ipNet.value, s.networks[w].hosts;
      if OnePerIP(hosts) {
        AddKeepsUnsharedExactly(net, hosts, bound, Host(QemuMAC(p.id), PairedIP(net, p.id).value), p.id);
      }
    }
  }

  lemma {:induction false} UnclashingPart(net: IPNet, hosts: seq<Host>, id: UInt, n: nat, m: nat)
    requires Unclashing(net, hosts, id, n) && m <= n
    ensures Unclashing(net, hosts, id, m)
  {
  }

  lemma {:induction false} NoneAdded(net: Network, hosts: seq<Host>, id: UInt)
    requires AddedFrom(net, hosts, id, 0)
    ensures hosts == net.hosts
  {
    assert hosts[..|net.hosts|] == hosts;
  }

  lemma {:induction false} AddedStaysPaired(s: State, w: string, id: UInt, count: UInt, s': State, done: bool,
                                            bound: nat)
    requires HostsAdded(s.networks, s'.networks, w, id, count, done)
    requires PairedNetwork(s, w, bound) && IdsBelow(id, count, bound)
    ensures PairedNetwork(s', w, bound) && SameIPNet(s, s', w)
    ensures UnsharedNetwork(s, w) && ClashFree(s, w, AddEntries(id, count)) ==> UnsharedNetwork(s', w)
  {
    if s'.networks != s.networks {
      var n: nat :| n <= count && AddedFrom(s.networks[w], s'.networks[w].hosts, id, n);
      var hosts, hosts' := s.networks[w].hosts, s'.networks[w].hosts;
      if n == 0 {
        NoneAdded(s.networks[w], hosts', id);
      } else {
        var net := s.networks[w].ipNet.value;
        assert s.networks[w] == Network(Some(net), hosts);
        AddedPaired(net, hosts, hosts', bound, id, n);
        if OnePerIP(hosts) {
          AddedUnsharedExactly(net, hosts, hosts', bound, id, n);
          if Unclashing(net, hosts, id, count) {
            UnclashingPart(net, hosts, id, count, n);
          }
        }
      }
    }
  }

  lemma {:induction false} FewerStaysUnshared(s: State, s': State, w: string)
    requires FewerEntries(s.networks, s'.networks) && UnsharedNetwork(s, w)
    ensures UnsharedNetwork(s', w)
  {
    if w in s.networks {
      FewerOnePerIP(s.networks[w].hosts, s'.networks[w].hosts);
    }
  }

  /** Whichever calls fail, the entries stay paired; and they share no address if no identifiers clash. */
  lemma {:induction false} StepPaired(s: State, w: string, digest: Vol -> Hash, op: Op, s': State, del: bool,
                                      bound: nat)
    requires Step(s, w, digest, op, s', del) && PairedNetwork(s, w, bound) && Explicit(op, bound)
    ensures PairedNetwork(s', w, bound) && SameIPNet(s, s', w)
    ensures UnsharedNetwork(s, w) && ClashFree(s, w, op) ==> UnsharedNetwork(s', w)
  {
    match op
    case StartMachine(cfg) =>
      var p :| Started(s, w, cfg, p, s');
      StartedPaired(s, w, cfg, p, s', bound);
    case AddEntries(id, count) =>
      var done :| HostsAdded(s.networks, s'.networks, w, id, count, done);
      AddedStaysPaired(s, w, id, count, s', done, bound);
    case _ =>
      OthersFewer(s, w, digest, op, s', del);
      FewerStaysPaired(s, s', w, bound);
      if UnsharedNetwork(s, w) {
        FewerStaysUnshared(s, s', w);
      }
  }

  /** A history in which anything may fail, deletions included. */
  ghost predicate AnyHistory(trace: seq<State>, w: string, digest: Vol -> Hash, ops: seq<Op>) {
    && |trace| == |ops| + 1
    && forall i, j :: 0 <= i < |ops| && j == i + 1 ==> AnyStep(trace[i], w, digest, ops[i], trace[j])
  }

  ghost predicate AnyStep(s: State, w: string, digest: Vol -> Hash, op: Op, s': State) {
    exists del :: Step(s, w, digest, op, s', del)
  }

  lemma {:induction false} AnyStepPaired(s: State, w: string, digest: Vol -> Hash, op: Op, s': State, bound: nat)
    requires AnyStep(s, w, digest, op, s') && PairedNetwork(s, w, bound) && Explicit(op, bound)
    ensures PairedNetwork(s', w, bound) && SameIPNet(s, s', w)
    ensures UnsharedNetwork(s, w) && ClashFree(s, w, op) ==> UnsharedNetwork(s', w)
  {
    var del :| Step(s, w, digest, op, s', del);
    StepPaired(s, w, digest, op, s', del, bound);
  }

  /** One step more. */
  lemma {:induction false} OneMoreStepPaired(s0: State, s: State, w: string, digest: Vol -> Hash, op: Op, s': State,
                                             bound: nat)
    requires AnyStep(s, w, digest, op, s') && PairedNetwork(s, w, bound) && Explicit(op, bound) && SameIPNet(s0, s, w)
    ensures PairedNetwork(s', w, bound) && SameIPNet(s0, s', w)
  {
    AnyStepPaired(s, w, digest, op, s', bound);
  }

  /**
   In every history whose new entries are asked for explicitly, every entry pairs the addresses of one
   identifier, and no MAC is entered twice, at all times.
   */
  lemma {:induction false} HistoryPaired(trace: seq<State>, w: string, digest: Vol -> Hash, ops: seq<Op>, bound: nat,
                                         k: nat)
    requires AnyHistory(trace, w, digest, ops) && k < |trace|
    requires PairedNetwork(trace[0], w, bound)
    requires forall op :: op in ops ==> Explicit(op, bound)
    ensures PairedNetwork(trace[k], w, bound) && SameIPNet(trace[0], trace[k], w)
    decreases k
  {
    if k > 0 {
      HistoryPaired(trace, w, digest, ops, bound, k - 1);
      assert ops[k - 1] in ops;
      OneMoreStepPaired(trace[0], trace[k - 1], w, digest, ops[k - 1], trace[k], bound);
    }
  }

  /** Nor do two entries ever share an address, if no operation asks for identifiers that clash. */
  lemma {:induction false} HistoryUnshared(trace: seq<State>, w: string, digest: Vol -> Hash, ops: seq<Op>, bound: nat,
                                           k: nat)
    requires AnyHistory(trace, w, digest, ops) && k < |trace|
    requires PairedNetwork(trace[0], w, bound) && UnsharedNetwork(trace[0], w)
    requires forall op :: op in ops ==> Explicit(op, bound)
    requires forall i :: 0 <= i < k ==> ClashFree(trace[i], w, ops[i])
    ensures UnsharedNetwork(trace[k], w)
    decreases k
  {
    if k > 0 {
      HistoryUnshared(trace, w, digest, ops, bound, k - 1);
      HistoryPaired(trace, w, digest, ops, bound, k - 1);
      assert ops[k - 1] in ops;
      AnyStepPaired(trace[k - 1], w, digest, ops[k - 1], trace[k], bound);
    }
  }

  /** At any moment two entries share an address exactly if they are for counterparts; below 2^63 there are none. */
  lemma {:induction false} HistorySharesExactly(trace: seq<State>, w: string, digest: Vol -> Hash, ops: seq<Op>,
                                                bound: nat, k: nat)
    requires AnyHistory(trace, w, digest, ops) && k < |trace|
    requires PairedNetwork(trace[0], w, bound)
    requires forall op :: op in ops ==> Explicit(op, bound)
    ensures w in trace[k].networks && trace[k].networks[w].ipNet.Some? ==>
              && (OnePerIP(trace[k].networks[w].hosts)
                  <==> NoCounterparts(trace[k].networks[w].ipNet.value, trace[k].networks[w].hosts))
              && (bound == TWO_TO_63 ==> OnePerIP(trace[k].networks[w].hosts))
  {
    HistoryPaired(trace, w, digest, ops, bound, k);
    if w in trace[k].networks && trace[k].networks[w].ipNet.Some? {
      var net, hosts := trace[k].networks[w].ipNet.value, trace[k].networks[w].hosts;
      UnsharedExactly(net, hosts, bound);
      if bound == TWO_TO_63 {
        SmallIdsUnshared(net, hosts);
      }
    }
  }

  /**
   Between any two moments: a MAC that is entered again has the identifier, and so the address, it had
   before; and an address belongs to one MAC, except exactly for counterparts.
   */
  lemma {:induction false} SameIdSameAddress(trace: seq<State>, w: string, digest: Vol -> Hash, ops: seq<Op>,
                                             bound: nat, k: nat, m: nat, a: Host, b: Host)
    returns (x: UInt, y: UInt)
    requires AnyHistory(trace, w, digest, ops) && k < |trace| && m < |trace|
    requires PairedNetwork(trace[0], w, bound)
    requires forall op :: op in ops ==> Explicit(op, bound)
    requires w in trace[0].networks ==> trace[0].networks[w].ipNet.Some?
    requires w in trace[k].networks && a in trace[k].networks[w].hosts
    requires w in trace[m].networks && b in trace[m].networks[w].hosts
    ensures w in trace[0].networks
    ensures var net := trace[0].networks[w].ipNet.value;
            && x < bound && y < bound && PairedEntry(net, a, x) && PairedEntry(net, b, y)
            && (a.mac == b.mac <==> x == y)
            && (a.ip == b.ip <==> x == y || Counterparts(net.hostBits, x, y))
  {
    HistoryPaired(trace, w, digest, ops, bound, k);
    HistoryPaired(trace, w, digest, ops, bound, m);
    var net := trace[0].networks[w].ipNet.value;
    assert IsPaired(net, a, bound) && IsPaired(net, b, bound);
    x :| x < bound && PairedEntry(net, a, x);
    y :| y < bound && PairedEntry(net, b, y);
    PairedExactly(net, a, b, x, y);
  }
}

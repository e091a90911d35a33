/**
 The storage pool as a value: volumes, what backs them, and what it means for
 a layer to be in use.  A volume's backing name is part of the file itself, so
 a volume is the pair of its own bytes and the name it is backed by.
 */
module Volumes {
  import opened Errors
  import opened Wrappers

  type Byte = x: int | 0 <= x < 256
  type Bytes = seq<Byte>
  type Hash = string

  /** Volume names by prefix: "virter:tag:", "virter:layer:", "virter:work:", anything else. */
  datatype Name = Tag(image: string) | Layer(hash: Hash) | Work(name: string) | Foreign(raw: string)

  datatype Vol = Vol(backing: Option<Name>, bytes: Bytes)

  type Pool = map<Name, Vol>

  /** The backing layer of a volume; an error if it is backed by something else. */
  function Dependency(p: Pool, n: Name): Result<Option<Name>, Error> {
    if n !in p then Failure(NoStorageVol)
    else match p[n].backing
      case None => Success(None)
      case Some(b) => if b.Layer? then Success(Some(b)) else Failure(NonVirterVolume)
  }

  predicate DependsOn(p: Pool, child: Name, n: Name) {
    Dependency(p, child) == Success(Some(n))
  }

  predicate Referenced(p: Pool, n: Name) {
    exists child :: child in p && DependsOn(p, child, n)
  }

  /** `parent` is the one and only volume backed by n. */
  ghost predicate SoleReferrer(p: Pool, n: Name, parent: Name) {
    DependsOn(p, parent, n) && forall x :: x in p && DependsOn(p, x, n) ==> x == parent
  }

  /** Volumes have names, every backing layer exists, and only foreign volumes are backed by non-layers. */
  ghost predicate Closed(p: Pool) {
    && Foreign("") !in p
    && forall x :: x in p ==> BackingPresent(p, x)
  }

  ghost predicate BackingPresent(p: Pool, x: Name)
    requires x in p
  {
    match p[x].backing
    case None => true
    case Some(b) => if b.Layer? then b in p else x.Foreign?
  }

  /** A volume outranks the layer it is backed by. */
  ghost predicate Ranked(p: Pool, rank: map<Name, nat>) {
    && (forall x :: x in p ==> x in rank)
    && (forall x, b :: x in p && b in p && DependsOn(p, x, b) ==> rank[b] < rank[x])
  }

  ghost predicate Acyclic(p: Pool) {
    exists rank :: Ranked(p, rank)
  }

  ghost predicate Sound(p: Pool) {
    Closed(p) && Acyclic(p)
  }

  /** q lists volumes base first, each one backed by its predecessor. */
  ghost predicate Path(p: Pool, q: seq<Name>) {
    && |q| > 0
    && q[0] in p
    && forall i, j :: 0 <= i && j == i + 1 && j < |q| ==> DependsOn(p, q[j], q[i])
  }

  /** A path that starts at a volume without any backing: the whole chain of its last volume. */
  ghost predicate Stack(p: Pool, q: seq<Name>) {
    Path(p, q) && p[q[0]].backing == None
  }

  /** A path from m up to a volume that is not a layer: a tag, a working volume or a foreign one. */
  ghost predicate RootPath(p: Pool, m: Name, q: seq<Name>) {
    Path(p, q) && q[0] == m && !q[|q| - 1].Layer?
  }

  ghost predicate Live(p: Pool, m: Name) {
    exists q :: RootPath(p, m, q)
  }

  /** Mark-and-sweep: keep what is live. */
  ghost function Sweep(p: Pool): Pool {
    map n | n in p && Live(p, n) :: p[n]
  }

  // ---------------------------------------------------------------- paths

  lemma {:induction false} PathMembers(p: Pool, q: seq<Name>)
    requires Path(p, q)
    ensures forall i :: 0 <= i < |q| ==> q[i] in p
  {
    forall i | 0 <= i < |q| ensures q[i] in p {
      if i > 0 {
        assert DependsOn(p, q[i], q[i - 1]);
      }
    }
  }

  lemma {:induction false} PathLower(p: Pool, q: seq<Name>, k: nat)
    requires Path(p, q) && k < |q|
    ensures Path(p, q[..k + 1]) && Path(p, q[k..])
  {
    PathMembers(p, q);
    var t := q[k..];
    forall i, j | 0 <= i && j == i + 1 && j < |t| ensures DependsOn(p, t[j], t[i]) {
      assert t[j] == q[k + j] && t[i] == q[k + i];
    }
  }

  lemma {:induction false} PathExtend(p: Pool, q: seq<Name>, top: Name)
    requires Path(p, q) && DependsOn(p, top, q[|q| - 1])
    ensures Path(p, q + [top])
  {
  }

  lemma {:induction false} PathPrepend(p: Pool, base: Name, q: seq<Name>)
    requires Path(p, q) && base in p && DependsOn(p, q[0], base)
    ensures Path(p, [base] + q)
  {
    var t := [base] + q;
    forall i, j | 0 <= i && j == i + 1 && j < |t| ensures DependsOn(p, t[j], t[i]) {
      assert t[j] == q[i];
      if i > 0 {
        assert t[i] == q[i - 1];
      }
    }
  }

  /** A path only depends on the volumes above its first element. */
  lemma {:induction false} PathFrame(p: Pool, p': Pool, q: seq<Name>)
    requires Path(p, q)
    requires forall i :: 0 <= i < |q| ==> q[i] in p' && (q[i] in p ==> p'[q[i]] == p[q[i]])
    ensures Path(p', q)
  {
    PathMembers(p, q);
    forall i, j | 0 <= i && j == i + 1 && j < |q| ensures DependsOn(p', q[j], q[i]) {
      assert DependsOn(p, q[j], q[i]);
    }
  }

  /** Two paths that end in the same volume agree as far down as both reach. */
  lemma {:induction false} PathsAgree(p: Pool, q: seq<Name>, r: seq<Name>)
    requires Path(p, q) && Path(p, r) && q[|q| - 1] == r[|r| - 1]
    requires |q| <= |r|
    ensures r[|r| - |q|..] == q
    decreases |q|
  {
    if |q| == 1 {
    } else {
      assert DependsOn(p, q[|q| - 1], q[|q| - 2]);
      assert DependsOn(p, r[|r| - 1], r[|r| - 2]);
      PathLower(p, q, |q| - 2);
      PathLower(p, r, |r| - 2);
      PathsAgree(p, q[..|q| - 1], r[..|r| - 1]);
      assert r[|r| - |q|..] == r[..|r| - 1][|r| - |q|..] + [r[|r| - 1]];
    }
  }

  /** The chain of a volume is unique. */
  lemma {:induction false} StackUnique(p: Pool, q: seq<Name>, r: seq<Name>)
    requires Stack(p, q) && Stack(p, r) && q[|q| - 1] == r[|r| - 1]
    ensures q == r
  {
    var a, b := if |q| <= |r| then q else r, if |q| <= |r| then r else q;
    PathsAgree(p, a, b);
    var k := |b| - |a|;
    assert b[k] == a[0];
    assert k > 0 ==> DependsOn(p, b[k], b[k - 1]);
  }

  /** In a sound pool of virter volumes every chain is complete. */
  lemma {:induction false} StackExists(p: Pool, rank: map<Name, nat>, n: Name) returns (q: seq<Name>)
    requires Closed(p) && Ranked(p, rank) && n in p && !n.Foreign?
    ensures Stack(p, q) && q[|q| - 1] == n
    decreases rank[n]
  {
    assert BackingPresent(p, n);
    if p[n].backing == None {
      q := [n];
    } else {
      var b := p[n].backing.value;
      assert DependsOn(p, n, b);
      q := StackExists(p, rank, b);
      PathExtend(p, q, n);
      q := q + [n];
    }
  }

  /** Ranks grow along a path, so no volume occurs twice. */
  lemma {:induction false} PathRanks(p: Pool, rank: map<Name, nat>, q: seq<Name>, i: nat, j: nat)
    requires Ranked(p, rank) && Path(p, q) && i < j < |q|
    ensures q[i] in p && q[j] in p && rank[q[i]] < rank[q[j]]
    decreases j
  {
    PathMembers(p, q);
    assert DependsOn(p, q[j], q[j - 1]);
    if i < j - 1 {
      PathRanks(p, rank, q, i, j - 1);
    }
  }

  // ---------------------------------------------------------------- soundness under single changes

  /** A new volume on a missing name: in a closed pool nothing can point at that name yet. */
  lemma {:induction false} CreateSound(p: Pool, n: Name, v: Vol)
    requires Sound(p) && n !in p && n != Foreign("")
    requires v.backing.Some? ==> if v.backing.value.Layer? then v.backing.value in p else n.Foreign?
    ensures Sound(p[n := v])
  {
    var p' := p[n := v];
    var rank :| Ranked(p, rank);
    var below := if v.backing.Some? && v.backing.value in p then rank[v.backing.value] else 0;
    var rank' := rank[n := below + 1];
    forall x | x in p' ensures BackingPresent(p', x) {
      assert x != n ==> BackingPresent(p, x);
    }
    forall x, b | x in p' && b in p' && DependsOn(p', x, b) ensures rank'[b] < rank'[x] {
      if x != n {
        assert BackingPresent(p, x);
        assert DependsOn(p, x, b);
      }
    }
    assert Ranked(p', rank');
  }

  /** Writing a volume leaves its backing alone. */
  lemma {:induction false} UploadSound(p: Pool, n: Name, bytes: Bytes)
    requires Sound(p) && n in p
    ensures Sound(p[n := Vol(p[n].backing, bytes)])
  {
    var p' := p[n := Vol(p[n].backing, bytes)];
    var rank :| Ranked(p, rank);
    forall x | x in p' ensures BackingPresent(p', x) {
      assert BackingPresent(p, x);
    }
    forall x, b | x in p' && b in p' && DependsOn(p', x, b) ensures rank[b] < rank[x] {
      assert DependsOn(p, x, b);
    }
    assert Ranked(p', rank);
  }

  lemma {:induction false} DeleteSound(p: Pool, n: Name)
    requires Sound(p) && !Referenced(p, n)
    ensures Sound(p - {n})
  {
    var p' := p - {n};
    var rank :| Ranked(p, rank);
    forall x | x in p' ensures BackingPresent(p', x) {
      assert BackingPresent(p, x);
      assert p[x].backing == Some(n) && n.Layer? ==> DependsOn(p, x, n);
    }
    forall x, b | x in p' && b in p' && DependsOn(p', x, b) ensures rank[b] < rank[x] {
      assert DependsOn(p, x, b);
    }
    assert Ranked(p', rank);
  }

  // ---------------------------------------------------------------- liveness under single changes

  /** A path of p that avoids n is a path of p without n, and conversely. */
  lemma {:induction false} PathWithout(p: Pool, n: Name, q: seq<Name>)
    ensures Path(p - {n}, q) <==> Path(p, q) && n !in q
  {
    var p' := p - {n};
    if Path(p', q) {
      PathMembers(p', q);
      PathFrame(p', p, q);
    }
    if Path(p, q) && n !in q {
      PathMembers(p, q);
      PathFrame(p, p', q);
    }
  }

  /** Deleting an unreferenced layer deletes garbage and makes nothing else garbage. */
  lemma {:induction false} SweepSkipsUnreferenced(p: Pool, n: Name)
    requires n.Layer? && !Referenced(p, n)
    ensures !Live(p, n)
    ensures Sweep(p - {n}) == Sweep(p)
  {
    var p' := p - {n};
    forall q: seq<Name> | Path(p, q) && !q[|q| - 1].Layer? ensures n !in q {
      PathMembers(p, q);
      forall i | 0 <= i < |q| ensures q[i] != n {
        assert i < |q| - 1 ==> DependsOn(p, q[i + 1], q[i]);
      }
    }
    forall m ensures Live(p', m) <==> Live(p, m) && m != n {
      if Live(p', m) {
        var q :| RootPath(p', m, q);
        PathWithout(p, n, q);
        assert RootPath(p, m, q) && q[0] in q;
      }
      if Live(p, m) {
        var q :| RootPath(p, m, q);
        PathWithout(p, n, q);
        assert q[0] in q;
        assert m != n ==> RootPath(p', m, q);
      }
    }
  }

  ghost function Above(p: Pool, rank: map<Name, nat>, m: Name): set<Name>
    requires Ranked(p, rank) && m in p
  {
    set x | x in p && rank[x] > rank[m]
  }

  /** If every layer is referenced, every layer is live: go up until a non-layer is met. */
  lemma {:induction false} ReferencedIsLive(p: Pool, rank: map<Name, nat>, m: Name)
    requires Ranked(p, rank) && m in p
    requires forall n :: n in p && n.Layer? ==> Referenced(p, n)
    ensures Live(p, m)
    decreases Above(p, rank, m)
  {
    if !m.Layer? {
      assert RootPath(p, m, [m]);
    } else {
      var parent :| parent in p && DependsOn(p, parent, m);
      assert parent in Above(p, rank, m) && parent !in Above(p, rank, parent);
      assert Above(p, rank, parent) <= Above(p, rank, m);
      ReferencedIsLive(p, rank, parent);
      var q :| RootPath(p, parent, q);
      PathPrepend(p, m, q);
      var t := [m] + q;
      assert RootPath(p, m, t);
    }
  }

  /** Taking roots away commutes with sweeping: garbage never decides what stays alive. */
  lemma {:induction false} SweepDrop(p: Pool, p': Pool, roots: set<Name>)
    requires Sweep(p) == Sweep(p')
    ensures Sweep(p - roots) == Sweep(p' - roots)
  {
    SweepDropOneWay(p, p', roots);
    SweepDropOneWay(p', p, roots);
  }

  lemma {:induction false} SweepDropOneWay(p: Pool, p': Pool, roots: set<Name>)
    requires Sweep(p) == Sweep(p')
    ensures forall m :: m in Sweep(p - roots) ==> m in Sweep(p' - roots) && p[m] == p'[m]
  {
    forall m | m in Sweep(p - roots) ensures m in Sweep(p' - roots) && p[m] == p'[m] {
      var q :| RootPath(p - roots, m, q);
      PathMembers(p - roots, q);
      PathFrame(p - roots, p, q);
      SweepKeepsChains(p, q);
      forall i | 0 <= i < |q| ensures q[i] in p' - roots && p'[q[i]] == p[q[i]] {
        assert q[i] in Sweep(p') && Sweep(p')[q[i]] == p'[q[i]];
      }
      PathFrame(p - roots, p' - roots, q);
      assert RootPath(p' - roots, m, q);
    }
  }

  lemma {:induction false} RootsAreSwept(p: Pool, n: Name)
    requires !n.Layer?
    ensures n in Sweep(p) <==> n in p
  {
    assert n in p ==> RootPath(p, n, [n]);
  }

  lemma {:induction false} SweepIdempotent(p: Pool)
    ensures Sweep(Sweep(p)) == Sweep(p)
  {
    forall m | m in Sweep(p) ensures Live(Sweep(p), m) {
      var q :| RootPath(p, m, q);
      SweepKeepsChains(p, q);
      assert RootPath(Sweep(p), m, q);
    }
  }

  lemma {:induction false} NothingToSweep(p: Pool)
    requires Acyclic(p)
    requires forall n :: n in p && n.Layer? ==> Referenced(p, n)
    ensures Sweep(p) == p
  {
    var rank :| Ranked(p, rank);
    forall m | m in p ensures Live(p, m) {
      ReferencedIsLive(p, rank, m);
    }
  }

  /** The chain below any volume that is not a layer survives a sweep untouched. */
  lemma {:induction false} SweepKeepsChains(p: Pool, q: seq<Name>)
    requires Path(p, q) && !q[|q| - 1].Layer?
    ensures Path(Sweep(p), q)
    ensures forall i :: 0 <= i < |q| ==> q[i] in p && q[i] in Sweep(p) && Sweep(p)[q[i]] == p[q[i]]
  {
    PathMembers(p, q);
    forall i | 0 <= i < |q| ensures Live(p, q[i]) {
      PathLower(p, q, i);
      var t := q[i..];
      assert RootPath(p, q[i], t);
    }
    PathFrame(p, Sweep(p), q);
  }
}

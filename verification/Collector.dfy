/**
 Incremental garbage collection.  Deleting a volume is followed down its chain
 for as long as the next layer is unused; pruning does this from every layer in
 whatever order the pool lists them.  This module relates both to mark-and-sweep.
 */
module Collector {
  import opened Errors
  import opened Wrappers
  import opened Volumes

  datatype Collected = Collected(pool: Pool, count: nat, outcome: Outcome<Error>)

  /** DeleteAllIfUnused as a function of the pool, when no libvirt call fails. */
  function Collect(p: Pool, n: Name): Collected
    decreases |p|
  {
    match Dependency(p, n)
    case Failure(e) => Collected(p, 0, Fail(e))
    case Success(dep) =>
      if Referenced(p, n) then Collected(p, 0, Pass)
      else if dep.None? then Collected(p - {n}, 1, Pass)
      else
        var rest := Collect(p - {n}, dep.value);
        rest.(count := rest.count + 1)
  }

  /** The same walk interrupted after at most k deletions. */
  function CollectUpTo(p: Pool, n: Name, k: nat): Pool {
    if k == 0 || Dependency(p, n).Failure? || Referenced(p, n) then p
    else
      var dep := Dependency(p, n).value;
      if dep.None? then p - {n} else CollectUpTo(p - {n}, dep.value, k - 1)
  }

  /** The prune loop as a function of the pool. */
  function Prune(p: Pool, order: seq<Name>): Pool
    decreases |order|
  {
    if order == [] then p else Prune(Collect(p, order[0]).pool, order[1..])
  }

  ghost predicate Submap(small: Pool, big: Pool) {
    forall x :: x in small ==> x in big && small[x] == big[x]
  }

  /** Every layer nobody points at is among the names given. */
  ghost predicate GarbageTops(p: Pool, names: set<Name>) {
    forall m :: m in p && m.Layer? && !Referenced(p, m) ==> m in names
  }

  /** The pool with n taken out of the roots: what n alone kept alive becomes garbage. */
  function Dropped(p: Pool, n: Name): Pool {
    if n.Layer? then p else p - {n}
  }

  // ---------------------------------------------------------------- one walk

  lemma {:induction false} CollectIsUpTo(p: Pool, n: Name, k: nat)
    requires k >= Collect(p, n).count
    ensures CollectUpTo(p, n, k) == Collect(p, n).pool
    decreases |p|
  {
    var dep := Dependency(p, n);
    if dep.Success? && !Referenced(p, n) && dep.value.Some? {
      CollectIsUpTo(p - {n}, dep.value.value, k - 1);
    }
  }

  lemma {:induction false} CollectCounts(p: Pool, n: Name)
    ensures Submap(Collect(p, n).pool, p)
    ensures |Collect(p, n).pool| + Collect(p, n).count == |p|
    decreases |p|
  {
    var dep := Dependency(p, n);
    if dep.Success? && !Referenced(p, n) {
      assert (p - {n}).Keys == p.Keys - {n};
      assert |p - {n}| == |(p - {n}).Keys| == |p| - 1;
      if dep.value.Some? {
        CollectCounts(p - {n}, dep.value.value);
      }
    }
  }

  /** A walk from n in p0 has deleted `count` volumes, leaving p, and goes on at cur. */
  ghost predicate Walked(p0: Pool, n: Name, count: nat, p: Pool, cur: Name) {
    && (forall k: nat {:trigger CollectUpTo(p, cur, k)} :: CollectUpTo(p0, n, count + k) == CollectUpTo(p, cur, k))
    && Collect(p0, n) == Collect(p, cur).(count := count + Collect(p, cur).count)
  }

  lemma {:induction false} WalkedStop(p0: Pool, n: Name, count: nat, p: Pool, cur: Name)
    requires Walked(p0, n, count, p, cur)
    ensures CollectUpTo(p0, n, count) == p
    ensures Dependency(p, cur).Failure? ==> Collect(p0, n) == Collected(p, count, Fail(Dependency(p, cur).error))
    ensures Dependency(p, cur).Success? && Referenced(p, cur) ==> Collect(p0, n) == Collected(p, count, Pass)
  {
    assert CollectUpTo(p, cur, 0) == p;
    assert CollectUpTo(p0, n, count + 0) == p;
  }

  lemma {:induction false} WalkedStep(p0: Pool, n: Name, count: nat, p: Pool, cur: Name)
    requires Walked(p0, n, count, p, cur)
    requires Dependency(p, cur).Success? && !Referenced(p, cur)
    ensures var dep := Dependency(p, cur).value;
            if dep.Some? then Walked(p0, n, count + 1, p - {cur}, dep.value)
            else Collect(p0, n) == Collected(p - {cur}, count + 1, Pass)
    ensures CollectUpTo(p0, n, count + 1) == p - {cur}
  {
    assert CollectUpTo(p, cur, 1) == p - {cur};
    var dep := Dependency(p, cur).value;
    if dep.Some? {
      forall k: nat ensures CollectUpTo(p0, n, count + 1 + k) == CollectUpTo(p - {cur}, dep.value, k) {
        assert CollectUpTo(p, cur, k + 1) == CollectUpTo(p - {cur}, dep.value, k);
        assert CollectUpTo(p0, n, count + (k + 1)) == CollectUpTo(p, cur, k + 1);
      }
    }
  }

  /** However far the walk gets, the pool stays closed and acyclic, and only unused things go. */
  lemma {:induction false} InterruptedCollect(p: Pool, n: Name, k: nat)
    requires Sound(p)
    ensures var p' := CollectUpTo(p, n, k);
            && Sound(p')
            && Submap(p', p)
            && (forall x :: x in p && !x.Layer? && x != n ==> x in p')
            && Sweep(Dropped(p', n)) == Sweep(Dropped(p, n))
            && (n in p' ==> p' == p)
  {
    if k == 0 || Dependency(p, n).Failure? || Referenced(p, n) {
    } else {
      var p1 := p - {n};
      DeleteSound(p, n);
      if n.Layer? {
        SweepSkipsUnreferenced(p, n);
      }
      var dep := Dependency(p, n).value;
      if dep.Some? {
        InterruptedCollect(p1, dep.value, k - 1);
        var p' := CollectUpTo(p, n, k);
        assert n !in p1;
        assert n !in p';
        assert Dropped(p1, n) == p1 && Dropped(p', n) == p';
        assert Dropped(p1, dep.value) == p1 && Dropped(p', dep.value) == p';
      } else {
        assert Dropped(p1, n) == p1;
      }
    }
  }

  lemma {:induction false} CollectSound(p: Pool, n: Name)
    requires Sound(p)
    ensures var p' := Collect(p, n).pool;
            && Sound(p')
            && Submap(p', p)
            && (forall x :: x in p && !x.Layer? && x != n ==> x in p')
            && Sweep(Dropped(p', n)) == Sweep(Dropped(p, n))
            && (n in p' ==> p' == p)
  {
    CollectIsUpTo(p, n, Collect(p, n).count);
    InterruptedCollect(p, n, Collect(p, n).count);
  }

  /** In a sound pool the walk never stops on an error, unless it starts at one. */
  lemma {:induction false} CollectSucceeds(p: Pool, n: Name)
    requires Sound(p)
    ensures Collect(p, n).outcome.Pass? <==> Dependency(p, n).Success?
    ensures Dependency(p, n).Success? && !n.Layer? ==> n !in Collect(p, n).pool
    decreases |p|
  {
    var dep := Dependency(p, n);
    if dep.Success? && !Referenced(p, n) && dep.value.Some? {
      DeleteSound(p, n);
      assert BackingPresent(p, n);
      assert dep.value.value != n by {
        var rank :| Ranked(p, rank);
        assert DependsOn(p, n, dep.value.value);
      }
      assert BackingPresent(p - {n}, dep.value.value);
      CollectSucceeds(p - {n}, dep.value.value);
      CollectCounts(p - {n}, dep.value.value);
    }
  }

  /** The walk leaves no garbage that was not there before, and none at its own start. */
  lemma {:induction false} CollectLeavesNoTop(p: Pool, n: Name, tops: set<Name>)
    requires Sound(p) && (n in p ==> Dependency(p, n).Success?)
    requires GarbageTops(p, tops)
    ensures GarbageTops(Collect(p, n).pool, tops - {n})
    decreases |p|
  {
    if n in p && !Referenced(p, n) {
      var p1 := p - {n};
      var dep := Dependency(p, n).value;
      DeleteSound(p, n);
      forall m | m in p1 && m.Layer? && !Referenced(p1, m) ensures m in tops - {n} || dep == Some(m) {
        if Referenced(p, m) {
          var child :| child in p && DependsOn(p, child, m);
          assert child != n ==> child in p1 && DependsOn(p1, child, m);
        }
      }
      if dep.Some? {
        var tops1 := (tops - {n}) + {dep.value};
        assert GarbageTops(p1, tops1);
        assert BackingPresent(p, n);
        if dep.value in p1 {
          assert BackingPresent(p1, dep.value);
        }
        CollectLeavesNoTop(p1, dep.value, tops1);
        forall m | m in Collect(p1, dep.value).pool && m.Layer? && !Referenced(Collect(p1, dep.value).pool, m)
          ensures m in tops - {n}
        {
          assert m in tops1 - {dep.value};
        }
      }
    } else {
      assert Collect(p, n).pool == p;
      forall m | m in p && m.Layer? && !Referenced(p, m) ensures m in tops - {n} {
        assert m != n;
      }
    }
  }

  /**
   Deleting a tag or a working volume from a pool without garbage is exact: what
   remains is what the other roots still reach, and the count says how much went.
   */
  lemma {:induction false} ExactCollection(p: Pool, n: Name)
    requires Sound(p) && Sweep(p) == p
    requires !n.Layer? && Dependency(p, n).Success?
    ensures var r := Collect(p, n);
            && r.outcome.Pass?
            && r.pool == Sweep(p - {n})
            && Sweep(r.pool) == r.pool
            && r.count == |p| - |Sweep(p - {n})|
  {
    var p' := Collect(p, n).pool;
    CollectSucceeds(p, n);
    CollectCounts(p, n);
    CollectLeavesNothing(p, n);
    CollectDropsRootOnly(p, n);
  }

  lemma {:induction false} CollectDropsRootOnly(p: Pool, n: Name)
    requires Sound(p) && !n.Layer? && Dependency(p, n).Success?
    ensures Sweep(Collect(p, n).pool) == Sweep(p - {n})
  {
    CollectSound(p, n);
    CollectDropsRoot(p, n);
    assert Dropped(Collect(p, n).pool, n) == Collect(p, n).pool;
  }

  lemma {:induction false} CollectLeavesNothing(p: Pool, n: Name)
    requires Sound(p) && Sweep(p) == p && Dependency(p, n).Success?
    ensures Sweep(Collect(p, n).pool) == Collect(p, n).pool
  {
    var none: set<Name> := {};
    CollectSound(p, n);
    SweptHasNoTops(p);
    CollectLeavesNoTop(p, n, none);
    assert none - {n} == none;
    NoTopsIsSwept(Collect(p, n).pool);
  }

  lemma {:induction false} SweptHasNoTops(p: Pool)
    requires Sweep(p) == p
    ensures GarbageTops(p, {})
  {
    forall m | m in p && m.Layer? ensures Referenced(p, m) {
      assert m in Sweep(p);
      if !Referenced(p, m) {
        SweepSkipsUnreferenced(p, m);
      }
    }
  }

  lemma {:induction false} NoTopsIsSwept(p: Pool)
    requires Sound(p) && GarbageTops(p, {})
    ensures Sweep(p) == p
  {
    NothingToSweep(p);
  }

  /** A root is never in use as a backing layer, so it always goes. */
  lemma {:induction false} CollectDropsRoot(p: Pool, n: Name)
    requires !n.Layer? && Dependency(p, n).Success?
    ensures n !in Collect(p, n).pool
  {
    if Dependency(p, n).value.Some? {
      CollectCounts(p - {n}, Dependency(p, n).value.value);
    }
  }

  // ---------------------------------------------------------------- pruning

  /**
   Pruning in any order that names every layer, with repetitions and with names
   that are gone by the time their turn comes, is mark-and-sweep.
   */
  lemma {:induction false} PruneIsSweep(p: Pool, order: seq<Name>)
    requires Sound(p)
    requires forall n :: n in order ==> n.Layer?
    requires forall n :: n in p && n.Layer? ==> n in order
    ensures Prune(p, order) == Sweep(p)
    ensures Sound(Prune(p, order))
  {
    assert GarbageTops(p, set n | n in order);
    PruneFrom(p, order);
  }

  lemma {:induction false} PruneFrom(p: Pool, order: seq<Name>)
    requires Sound(p)
    requires forall n :: n in order ==> n.Layer?
    requires GarbageTops(p, set n | n in order)
    ensures Prune(p, order) == Sweep(p)
    ensures Sound(Prune(p, order))
    decreases |order|
  {
    if order == [] {
      NothingToSweep(p);
    } else {
      var n, rest := order[0], order[1..];
      var p1 := Collect(p, n).pool;
      assert n in p ==> BackingPresent(p, n);
      CollectLeavesNoTop(p, n, set m | m in order);
      CollectSound(p, n);
      assert forall m :: m in order <==> m == n || m in rest;
      assert GarbageTops(p1, set m | m in rest);
      PruneFrom(p1, rest);
    }
  }

  // ---------------------------------------------------------------- what a walk removes

  /** Every volume from m up to, but without, n is backed into by exactly one other, and n by none. */
  ghost predicate SoleChain(p: Pool, m: Name, n: Name, q: seq<Name>) {
    && Path(p, q) && q[0] == m && q[|q| - 1] == n
    && !Referenced(p, n)
    && forall i, j :: 0 <= i && j == i + 1 && j < |q| ==> SoleReferrer(p, q[i], q[j])
  }

  lemma {:induction false} SoleChainCollected(p: Pool, m: Name, n: Name, q: seq<Name>)
    requires Sound(p) && Dependency(p, n).Success?
    requires SoleChain(p, m, n, q)
    ensures m !in Collect(p, n).pool
    decreases |q|
  {
    var p1 := p - {n};
    if |q| == 1 {
      if Dependency(p, n).value.Some? {
        CollectCounts(p1, Dependency(p, n).value.value);
      }
    } else {
      var q1 := q[..|q| - 1];
      var dep := q[|q| - 2];
      assert SoleReferrer(p, dep, n);
      DeleteSound(p, n);
      assert BackingPresent(p, n);
      assert n !in q1 by {
        var rank :| Ranked(p, rank);
        forall i | 0 <= i < |q1| ensures q1[i] != n {
          PathRanks(p, rank, q, i, |q| - 1);
        }
      }
      PathLower(p, q, |q| - 2);
      PathWithout(p, n, q1);
      assert !Referenced(p1, dep) by {
        forall x | x in p1 ensures !DependsOn(p1, x, dep) {
          assert DependsOn(p, x, dep) ==> x == n;
        }
      }
      forall i, j | 0 <= i && j == i + 1 && j < |q1| ensures SoleReferrer(p1, q1[i], q1[j]) {
        assert SoleReferrer(p, q[i], q[j]);
        assert DependsOn(p1, q1[j], q1[i]);
        forall x | x in p1 && DependsOn(p1, x, q1[i]) ensures x == q1[j] {
          assert DependsOn(p, x, q1[i]);
        }
      }
      assert SoleChain(p1, m, dep, q1);
      assert BackingPresent(p1, dep);
      SoleChainCollected(p1, m, dep, q1);
    }
  }

  lemma {:induction false} CollectedSoleChain(p: Pool, m: Name, n: Name) returns (q: seq<Name>)
    requires Sound(p) && Dependency(p, n).Success?
    requires m in p && m !in Collect(p, n).pool
    ensures SoleChain(p, m, n, q)
    decreases |p|
  {
    if m == n {
      q := [n];
    } else {
      var p1 := p - {n};
      var dep := Dependency(p, n).value.value;
      DeleteSound(p, n);
      assert BackingPresent(p, n);
      var rank :| Ranked(p, rank);
      assert DependsOn(p, n, dep);
      assert dep in p1;
      assert BackingPresent(p1, dep);
      var q1 := CollectedSoleChain(p1, m, dep);
      PathWithout(p, n, q1);
      PathExtend(p, q1, n);
      q := q1 + [n];
      forall i, j | 0 <= i && j == i + 1 && j < |q| ensures SoleReferrer(p, q[i], q[j]) {
        if j < |q1| {
          assert SoleReferrer(p1, q1[i], q1[j]);
          PathRanks(p, rank, q1, i, |q1| - 1);
          forall x | x in p && DependsOn(p, x, q[i]) ensures x == q[j] {
            assert x != n ==> x in p1 && DependsOn(p1, x, q[i]);
          }
        } else {
          forall x | x in p && DependsOn(p, x, dep) ensures x == n {
            assert x != n ==> x in p1 && DependsOn(p1, x, dep);
          }
        }
      }
    }
  }

  /** A walk from n removes m exactly when nothing else stands on the chain between them. */
  lemma {:induction false} CollectRemovesExactly(p: Pool, m: Name, n: Name)
    requires Sound(p) && Dependency(p, n).Success? && m in p
    ensures m !in Collect(p, n).pool <==> exists q :: SoleChain(p, m, n, q)
  {
    if m !in Collect(p, n).pool {
      var q := CollectedSoleChain(p, m, n);
    }
    if q :| SoleChain(p, m, n, q) {
      SoleChainCollected(p, m, n, q);
    }
  }
}

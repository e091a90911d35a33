/**
 Volumes as layers: deleting what is unused, and turning a working volume into an
 immutable layer named by its digest.
 */
module Layers {
  import opened Errors
  import opened Wrappers
  import opened Volumes
  import opened Collector
  import opened Libvirt

  // ---------------------------------------------------------------- looking up and deleting

  /** Success(false) when there is no such volume. */
  method FindRawLayer(c: Connection, n: Name) returns (r: Result<bool, Error>)
    modifies c`faults
    ensures r.Success? ==> c.faults == old(c.faults) && r.value == (n in c.vols)
    ensures r.Failure? ==> c.faults > old(c.faults)
  {
    var o := c.LookupVolume(n);
    match o
    case Pass => return Success(true);
    case Fail(e) => return if e == NoStorageVol then Success(false) else Failure(e);
  }

  method ReadDependency(c: Connection, n: Name) returns (r: Result<Option<Name>, Error>)
    modifies c`faults
    ensures c.faults == old(c.faults) ==> r == Dependency(c.vols, n)
    ensures c.faults != old(c.faults) ==> r == Failure(LibvirtFailure) && c.faults > old(c.faults)
  {
    var desc :- c.DescribeVolume(n);
    match desc.backing
    case None => return Success(None);
    case Some(b) => return if b.Layer? then Success(Some(b)) else Failure(NonVirterVolume);
  }

  /** Deleting a volume that does not exist succeeds. */
  method Delete(c: Connection, n: Name) returns (r: Outcome<Error>)
    modifies c`vols, c`faults, c`deleteFaults
    ensures r.Pass? ==> c.vols == old(c.vols) - {n} && c.faults == old(c.faults)
    ensures r.Fail? ==> c.vols == old(c.vols) && c.faults > old(c.faults)
    ensures c.deleteFaults - old(c.deleteFaults) == c.faults - old(c.faults)
  {
    r := c.DeleteVolume(n);
    if r == Fail(NoStorageVol) {
      r := Pass;
    }
  }

  /** Success(true) if the volume was deleted, Success(false) if another one is backed by it. */
  method DeleteIfUnused(c: Connection, n: Name) returns (r: Result<bool, Error>)
    modifies c`vols, c`faults, c`deleteFaults
    ensures r.Success? ==> c.faults == old(c.faults) && r.value == !Referenced(old(c.vols), n)
    ensures r == Success(true) ==> c.vols == old(c.vols) - {n}
    ensures r != Success(true) ==> c.vols == old(c.vols)
    ensures r.Failure? ==> c.faults > old(c.faults)
    ensures 0 <= c.deleteFaults - old(c.deleteFaults) <= c.faults - old(c.faults)
  {
    var vols :- c.ListVolumes();
    for i := 0 to |vols|
      invariant c.vols == old(c.vols) && c.faults == old(c.faults) && c.deleteFaults == old(c.deleteFaults)
      invariant forall j :: 0 <= j < i ==> !DependsOn(c.vols, vols[j], n)
    {
      var dep := ReadDependency(c, vols[i]);
      match dep
      case Failure(e) =>
        if e != NonVirterVolume && e != NoStorageVol {
          return Failure(e);
        }
      case Success(d) =>
        if d == Some(n) {
          assert DependsOn(c.vols, vols[i], n);
          return Success(false);
        }
    }
    assert !Referenced(c.vols, n) by {
      forall child | child in c.vols ensures !DependsOn(c.vols, child, n) {
        assert child in vols;
      }
    }
    var o := Delete(c, n);
    return if o.Fail? then Failure(o.error) else Success(true);
  }

  /**
   Walks down the chain, deleting what is not in use.  An interruption leaves the walk
   exactly as far as the count says; without one the result is Collect's.
   */
  method DeleteAllIfUnused(c: Connection, n: Name) returns (count: nat, r: Outcome<Error>)
    modifies c`vols, c`faults, c`deleteFaults
    ensures c.vols == CollectUpTo(old(c.vols), n, count)
    ensures c.faults == old(c.faults) ==> Collected(c.vols, count, r) == Collect(old(c.vols), n)
    ensures c.faults != old(c.faults) ==> r.Fail?
    ensures c.faults == old(c.faults) ==> c.deleteFaults == old(c.deleteFaults)
    ensures c.faults >= old(c.faults) && c.deleteFaults >= old(c.deleteFaults)
  {
    var cur := n;
    count := 0;
    while true
      invariant c.faults == old(c.faults) && c.deleteFaults == old(c.deleteFaults)
      invariant Walked(old(c.vols), n, count, c.vols, cur)
      decreases |c.vols|
    {
      WalkedStop(old(c.vols), n, count, c.vols, cur);
      ghost var p := c.vols;
      var deleted, dependency := DeleteNext(c, cur);
      if deleted.Failure? {
        return count, Fail(deleted.error);
      }
      if !deleted.value {
        return count, Pass;
      }
      WalkedStep(old(c.vols), n, count, p, cur);
      Shrinks(p, cur);
      count := count + 1;
      if dependency.None? {
        return count, Pass;
      }
      cur := dependency.value;
    }
  }

  /** One turn of the walk: what the layer is based on is read before it is deleted. */
  method DeleteNext(c: Connection, n: Name) returns (deleted: Result<bool, Error>, dependency: Option<Name>)
    modifies c`vols, c`faults, c`deleteFaults
    ensures deleted.Success? ==>
              && c.faults == old(c.faults) && c.deleteFaults == old(c.deleteFaults)
              && Dependency(old(c.vols), n) == Success(dependency)
              && deleted.value == !Referenced(old(c.vols), n)
              && c.vols == if deleted.value then old(c.vols) - {n} else old(c.vols)
    ensures deleted.Failure? ==>
              && c.vols == old(c.vols)
              && (c.faults == old(c.faults) ==> Dependency(c.vols, n) == Failure(deleted.error))
    ensures c.faults == old(c.faults) ==> c.deleteFaults == old(c.deleteFaults)
    ensures c.faults >= old(c.faults) && c.deleteFaults >= old(c.deleteFaults)
  {
    dependency := None;
    var dep := ReadDependency(c, n);
    if dep.Failure? {
      return Failure(dep.error), None;
    }
    dependency := dep.value;
    deleted := DeleteIfUnused(c, n);
  }

  lemma {:induction false} Shrinks(p: Pool, n: Name)
    requires n in p
    ensures |p - {n}| < |p|
  {
    assert (p - {n}).Keys == p.Keys - {n};
  }

  // ---------------------------------------------------------------- creating

  /** A new empty volume; its backing layer, if any, must exist. */
  method EmptyVolume(c: Connection, n: Name, backing: Option<Name>) returns (r: Outcome<Error>)
    modifies c`vols, c`faults
    ensures r.Pass? ==> c.faults == old(c.faults) && n !in old(c.vols) && c.vols == old(c.vols)[n := Vol(backing, [])]
    ensures r.Pass? && backing.Some? ==> backing.value in old(c.vols)
    ensures r.Fail? ==> c.vols == old(c.vols) && c.faults >= old(c.faults)
    ensures r.Fail? && c.faults == old(c.faults) ==>
              r.error == if backing.Some? && backing.value !in c.vols then NoStorageVol else AlreadyExists
    ensures r == Fail(AlreadyExists) ==> n in c.vols
  {
    if backing.Some? {
      var desc := c.DescribeVolume(backing.value);
      if desc.Failure? {
        return Fail(desc.error);
      }
    }
    r := c.CreateVolume(n, backing);
  }

  method NewDynamicLayer(c: Connection, name: string, backing: Option<Name>) returns (r: Outcome<Error>)
    modifies c`vols, c`faults
    ensures r.Pass? ==> c.faults == old(c.faults) && Work(name) !in old(c.vols)
                        && c.vols == old(c.vols)[Work(name) := Vol(backing, [])]
    ensures r.Pass? && backing.Some? ==> backing.value in old(c.vols)
    ensures r.Fail? ==> c.vols == old(c.vols) && c.faults >= old(c.faults)
    ensures r.Fail? && c.faults == old(c.faults) ==>
              r.error == if backing.Some? && backing.value !in c.vols then NoStorageVol else AlreadyExists
    ensures r == Fail(AlreadyExists) ==> Work(name) in c.vols
  {
    r := EmptyVolume(c, Work(name), backing);
  }

  // ---------------------------------------------------------------- converting

  /** What is left on `name` by a copy of n that may have broken off. */
  ghost predicate CopyOf(p: Pool, n: Name, name: Name, p': Pool) {
    && n in p && name !in p && name in p'
    && p'[name].backing == p[n].backing
    && p' == p[name := p'[name]]
  }

  /**
   Copies a volume by downloading and uploading it.  A broken download is only logged, so
   even a successful copy is known to be complete only if no call failed.
   */
  method CloneAs(c: Connection, n: Name, name: Name) returns (r: Outcome<Error>)
    modifies c`vols, c`faults
    ensures c.faults >= old(c.faults)
    ensures r.Pass? ==> CopyOf(old(c.vols), n, name, c.vols)
    ensures r.Pass? && c.faults == old(c.faults) ==> c.vols == old(c.vols)[name := old(c.vols)[n]]
    ensures r.Fail? ==> c.vols == old(c.vols) || CopyOf(old(c.vols), n, name, c.vols)
    ensures r.Fail? && c.faults == old(c.faults) ==>
              c.vols == old(c.vols) && r.error == if n in c.vols then AlreadyExists else NoStorageVol
    ensures r == Fail(AlreadyExists) ==> name in old(c.vols)
  {
    var original := c.DescribeVolume(n);
    if original.Failure? {
      return Fail(original.error);
    }
    r := c.CreateVolume(name, original.value.backing);
    if r.Fail? {
      return;
    }
    var buffer, ignored := c.DownloadVolume(n);
    r := c.UploadVolume(name, buffer.bytes);
  }

  datatype Converted = Converted(pool: Pool, layer: Result<Name, Error>)

  /** ToVolumeLayer as a function of the pool, for a volume n with digest id. */
  function ToLayer(p: Pool, n: Name, id: Hash): Converted {
    var layer := Layer(id);
    if layer in p then Converted(p - {n}, Success(layer))
    else if n in p then Converted(p[layer := p[n]] - {n}, Success(layer))
    else Converted(p, Failure(NoStorageVol))
  }

  /** A copy of n under the layer's name, complete or not, with n gone. */
  ghost predicate Moved(p: Pool, n: Name, layer: Name, p': Pool) {
    && n in p && layer !in p && layer in p'
    && p'[layer].backing == p[n].backing
    && p' == p[layer := p'[layer]] - {n}
  }

  /**
   All the ways a conversion of n can end.  If it fails, either nothing has changed, or a copy is
   left beside n, or the layer has been deleted although it was there before; the last takes a
   failed deletion, which `del` allows.  If it succeeds, n is gone and `got` is what is handed on:
   the layer, found or copied, or the volume without a name that a failing lookup yields.
   */
  ghost predicate Conversion(p: Pool, n: Name, layer: Name, p': Pool, got: Option<Name>, del: bool) {
    match got
    case None => p' == p || CopyOf(p, n, layer, p') || (del && p' == p - {layer})
    case Some(m) =>
      || (m == layer && layer in p && p' == p - {n})
      || (m == layer && Moved(p, n, layer, p'))
      || (m == Foreign("") && p' == p - {n})
  }

  /** In a sound pool a layer can be taken away exactly if nothing stands on it. */
  lemma {:induction false} DeletionSoundExactly(p: Pool, layer: Name)
    requires Sound(p) && layer.Layer?
    ensures Sound(p - {layer}) <==> !Referenced(p, layer)
  {
    if Referenced(p, layer) {
      var child :| child in p && DependsOn(p, child, layer);
      assert child == layer || (child in p - {layer} && !BackingPresent(p - {layer}, child));
      var rank :| Ranked(p, rank);
      assert BackingPresent(p, child) && DependsOn(p, child, layer);
    } else {
      DeleteSound(p, layer);
    }
  }

  lemma {:induction false} CopySound(p: Pool, n: Name, layer: Name, p': Pool)
    requires Sound(p) && n.Work? && layer.Layer? && CopyOf(p, n, layer, p')
    ensures Sound(p')
  {
    assert BackingPresent(p, n);
    CreateSound(p, layer, p'[layer]);
  }

  /** Sound, unless a layer that others stand on was taken away. */
  lemma {:induction false} ConversionSound(p: Pool, n: Name, layer: Name, p': Pool, got: Option<Name>, del: bool)
    requires Sound(p) && n.Work? && layer.Layer? && Conversion(p, n, layer, p', got, del)
    requires del ==> !Referenced(p, layer)
    ensures Sound(p')
  {
    if CopyOf(p, n, layer, p') {
      CopySound(p, n, layer, p');
    } else if Moved(p, n, layer, p') {
      var p1 := p[layer := p'[layer]];
      CopySound(p, n, layer, p1);
      DeleteSound(p1, n);
    } else {
      DeleteSound(p, n);
      DeletionSoundExactly(p, layer);
    }
  }

  lemma {:induction false} ConversionSoundIf(p: Pool, n: Name, layer: Name, p': Pool, got: Option<Name>, del: bool)
    requires n.Work? && layer.Layer? && Conversion(p, n, layer, p', got, del)
    ensures Sound(p) && (del ==> !Referenced(p, layer)) ==> Sound(p')
  {
    if Sound(p) && (del ==> !Referenced(p, layer)) {
      ConversionSound(p, n, layer, p', got, del);
    }
  }

  /**
   However a conversion ends, the pool stays sound, exactly if no volume stands on the layer it is
   to become.  The guard the code lacks is the one of DeleteIfUnused.
   */
  lemma {:induction false} ConversionSoundExactly(p: Pool, n: Name, layer: Name)
    requires Sound(p) && n.Work? && layer.Layer?
    ensures (forall p', got :: Conversion(p, n, layer, p', got, true) ==> Sound(p')) <==> !Referenced(p, layer)
  {
    if Referenced(p, layer) {
      assert Conversion(p, n, layer, p - {layer}, None, true);
      DeletionSoundExactly(p, layer);
    } else {
      forall p', got | Conversion(p, n, layer, p', got, true) ensures Sound(p') {
        ConversionSound(p, n, layer, p', got, true);
      }
    }
  }

  /** The layer if the pool has it, else a copy of n under its name. */
  method FindOrClone(c: Connection, n: Name, layer: Name) returns (r: Result<Name, Error>)
    requires layer.Layer?
    modifies c`vols, c`faults
    ensures c.faults >= old(c.faults)
    ensures c.faults == old(c.faults) ==>
              if layer in old(c.vols) then r == Success(layer) && c.vols == old(c.vols)
              else if n in old(c.vols) then r == Success(layer) && c.vols == old(c.vols)[layer := old(c.vols)[n]]
              else r == Failure(NoStorageVol) && c.vols == old(c.vols)
    ensures c.vols == old(c.vols) || CopyOf(old(c.vols), n, layer, c.vols)
    ensures r.Success? ==>
              if r.value == layer then layer in c.vols
              else r.value == Foreign("") && c.vols == old(c.vols) && c.faults > old(c.faults)
  {
    var found := c.LookupVolume(layer);
    if found == Fail(NoStorageVol) {
      var clone := CloneAs(c, n, layer);
      return if clone.Fail? then Failure(clone.error) else Success(layer);
    }
    return Success(if found.Pass? then layer else Foreign(""));
  }

  function Got(r: Result<Name, Error>): Option<Name> {
    if r.Success? then Some(r.value) else None
  }

  /**
   Turns n into a layer and deletes n.  Without failing calls this is ToLayer.  A failing lookup
   is taken for an existing layer and yields a volume without a name, Foreign(""); a failing
   deletion of n takes the layer away again, whether or not it was there before.
   */
  method ToVolumeLayer(c: Connection, n: Name, diffId: Option<Hash>) returns (r: Result<Name, Error>)
    requires !n.Layer?
    modifies c`vols, c`faults, c`deleteFaults
    ensures c.faults >= old(c.faults) && c.deleteFaults >= old(c.deleteFaults)
    ensures c.faults == old(c.faults) && (diffId.None? ==> n in old(c.vols)) ==>
              Converted(c.vols, r) ==
              ToLayer(old(c.vols), n, if diffId.Some? then diffId.value else c.digest(old(c.vols)[n]))
    ensures diffId.None? && n !in old(c.vols) ==> r.Failure? && c.vols == old(c.vols)
    ensures diffId.Some? || n in old(c.vols) ==>
              Conversion(old(c.vols), n, Layer(if diffId.Some? then diffId.value else c.digest(old(c.vols)[n])),
                         c.vols, Got(r), c.deleteFaults != old(c.deleteFaults))
    ensures c.deleteFaults != old(c.deleteFaults) ==> r.Failure? && c.faults != old(c.faults)
  {
    var id: Hash;
    if diffId.Some? {
      id := diffId.value;
    } else {
      var file, o := c.DownloadVolume(n);
      if o.Fail? {
        return Failure(o.error);
      }
      id := c.digest(file);
    }

    var layer := Layer(id);
    var found := FindOrClone(c, n, layer);
    if found.Failure? {
      return Failure(found.error);
    }
    var imported := found.value;
    var removed := Delete(c, n);
    if removed.Fail? {
      if imported.Layer? {
        // no pool holds a volume without a name, so there is nothing else to clean up
        var ignored := Delete(c, imported);
      }
      return Failure(removed.error);
    }
    return Success(imported);
  }

  /** The case that is left does break chains: a converted copy of a layer in use, and a failing deletion. */
  lemma {:induction false} CleanupMayBreakChains()
    ensures exists p: Pool, p': Pool, n: Name, layer: Name ::
              Sound(p) && n.Work? && layer.Layer? && Conversion(p, n, layer, p', None, true) && !Sound(p')
  {
    var p0: Pool := map[];
    var empty: map<Name, nat> := map[];
    assert Ranked(p0, empty);
    var layer, tag, n := Layer("a"), Tag("img"), Work("import-a");
    var p1 := p0[layer := Vol(None, [])];
    CreateSound(p0, layer, p1[layer]);
    var p2 := p1[tag := Vol(Some(layer), [])];
    CreateSound(p1, tag, p2[tag]);
    var p := p2[n := Vol(None, [])];
    CreateSound(p2, n, p[n]);
    assert DependsOn(p, tag, layer);
    ConversionSoundExactly(p, n, layer);
    assert Conversion(p, n, layer, p - {layer}, None, true);
    DeletionSoundExactly(p, layer);
  }
}

/**
 Images: a tag is an empty volume backed by its top layer.  Tagging, removing, importing,
 listing the layers of an image, and pruning.
 */
module Images {
  import opened Errors
  import opened Wrappers
  import opened Volumes
  import opened Collector
  import opened Libvirt
  import opened Layers

  /** A layer as a registry sees it: the digest it is listed under and its content. */
  datatype Blob = Blob(id: Hash, bytes: Bytes)

  datatype RemoteLayer = RemoteLayer(blob: Blob, virterLayer: bool)

  datatype RemoteImage = RemoteImage(virterImage: bool, layers: seq<RemoteLayer>)

  datatype Changed = Changed(pool: Pool, outcome: Outcome<Error>)

  // ---------------------------------------------------------------- operations as functions of the pool

  function Attach(p: Pool, tag: Name, top: Name): Changed {
    if top in p then Changed(p[tag := Vol(Some(top), [])], Pass) else Changed(p, Fail(NoStorageVol))
  }

  /** MakeImage: a tag that points elsewhere is collected first, the new one attached afterwards. */
  function Retag(p: Pool, image: string, top: Name): Changed {
    var tag := Tag(image);
    if tag !in p then Attach(p, tag, top)
    else
      match Dependency(p, tag)
      case Failure(e) => Changed(p, Fail(e))
      case Success(None) => Changed(p, Fail(NilLayer))
      case Success(Some(current)) =>
        if !top.Layer? then Changed(p, Fail(NonVirterVolume))
        else if current == top then Changed(p, Pass)
        else
          var r := Collect(p, tag);
          if r.outcome.Fail? then Changed(r.pool, r.outcome) else Attach(r.pool, tag, top)
  }

  function ImportName(id: Hash): string {
    "import-" + id
  }

  datatype Imported = Imported(pool: Pool, top: Option<Name>, outcome: Outcome<Error>)

  /** The import loop, from the layer after `top` on. */
  function ImportLayers(p: Pool, layers: seq<RemoteLayer>, top: Option<Name>): Imported
    decreases |layers|
  {
    if layers == [] then Imported(p, top, Pass)
    else
      var blob := layers[0].blob;
      var layer := Layer(blob.id);
      if !layers[0].virterLayer then Imported(p, top, Fail(WrongMediaType))
      else if layer in p then ImportLayers(p, layers[1..], Some(layer))
      else if top.Some? && top.value !in p then Imported(p, top, Fail(NoStorageVol))
      else if Work(ImportName(blob.id)) in p then Imported(p, top, Fail(AlreadyExists))
      else ImportLayers(p[layer := Vol(top, blob.bytes)], layers[1..], Some(layer))
  }

  function Import(p: Pool, name: string, image: RemoteImage): Changed {
    if !image.virterImage then Changed(p, Fail(NonVirterVolume))
    else
      var r := ImportLayers(p, image.layers, None);
      if r.outcome.Fail? then Changed(r.pool, r.outcome)
      else if r.top.None? then Changed(r.pool, Fail(EmptyImage))
      else Retag(r.pool, name, r.top.value)
  }

  /** ImageImportFromReader, for a stream with the given digest. */
  function ImportRaw(p: Pool, image: string, bytes: Bytes, id: Hash): Changed {
    if Work(image) in p then Changed(p, Fail(AlreadyExists))
    else Retag(if Layer(id) in p then p else p[Layer(id) := Vol(None, bytes)], image, Layer(id))
  }

  function RemoveImage(p: Pool, image: string): Changed {
    if Tag(image) !in p then Changed(p, Pass)
    else var r := Collect(p, Tag(image)); Changed(r.pool, r.outcome)
  }

  function Spawn(p: Pool, name: string, top: Option<Name>): Changed {
    if top.Some? && top.value !in p then Changed(p, Fail(NoStorageVol))
    else if Work(name) in p then Changed(p, Fail(AlreadyExists))
    else Changed(p[Work(name) := Vol(top, [])], Pass)
  }

  /** A volume is spawned exactly if its name is free and its backing is there; it is empty and has that backing. */
  lemma {:induction false} SpawnExactly(p: Pool, name: string, top: Option<Name>)
    requires top.Some? ==> top.value.Layer?
    ensures var r := Spawn(p, name, top);
            && (r.outcome.Pass? <==> Work(name) !in p && (top.Some? ==> top.value in p))
            && (r.outcome.Pass? ==> Dependency(r.pool, Work(name)) == Success(top) && r.pool[Work(name)].bytes == [])
            && r.pool - {Work(name)} == p - {Work(name)}
            && (r.outcome.Fail? ==> r.pool == p)
  {
    var r := Spawn(p, name, top).pool;
    assert (r - {Work(name)}).Keys == (p - {Work(name)}).Keys;
  }

  // ---------------------------------------------------------------- how operations can end

  /** The tag points at another layer than top, so its chain is collected before it is attached anew. */
  predicate Replaces(p: Pool, image: string, top: Name) {
    && Dependency(p, Tag(image)).Success? && Dependency(p, Tag(image)).value.Some?
    && top.Layer? && Dependency(p, Tag(image)).value.value != top
  }

  ghost predicate CollectedPart(p: Pool, n: Name, p': Pool) {
    exists k: nat :: p' == CollectUpTo(p, n, k)
  }

  /** MakeImage goes through or breaks off, before or during or after the collection of the old chain. */
  ghost predicate RetagOutcome(p: Pool, image: string, top: Name, p': Pool) {
    || p' == p
    || p' == Retag(p, image, top).pool
    || (Replaces(p, image, top) && CollectedPart(p, Tag(image), p'))
  }

  ghost predicate RemoveOutcome(p: Pool, image: string, p': Pool) {
    || p' == RemoveImage(p, image).pool
    || CollectedPart(p, Tag(image), p')
  }

  /** The given volumes are new, all on the same backing, with whatever content; nothing else differs. */
  ghost predicate Adds(p: Pool, p': Pool, names: set<Name>, backing: Option<Name>) {
    && names !! p.Keys && p'.Keys == p.Keys + names
    && (forall n :: n in p ==> p'[n] == p[n])
    && (forall n :: n in names ==> p'[n].backing == backing)
  }

  predicate CanCreate(p: Pool, n: Name, backing: Option<Name>) {
    n !in p && (backing.Some? ==> backing.value in p)
  }

  /** A missing layer was stored on top, complete or not; or a failing lookup made it vanish. */
  ghost predicate FetchedLayer(p: Pool, blob: Blob, top: Option<Name>, p': Pool, got: Name) {
    && CanCreate(p, Work(ImportName(blob.id)), top)
    && ((got == Layer(blob.id) && Adds(p, p', {got}, top)) || (got == Foreign("") && p' == p))
  }

  /** Storing it broke off: it may be there half, and after a failed deletion the working volume too. */
  ghost predicate FetchBroken(p: Pool, blob: Blob, top: Option<Name>, p': Pool, del: bool) {
    var dyn, layer := Work(ImportName(blob.id)), Layer(blob.id);
    || p' == p
    || (&& CanCreate(p, dyn, top)
        && (Adds(p, p', {layer}, top) || (del && (Adds(p, p', {dyn}, top) || Adds(p, p', {dyn, layer}, top)))))
  }

  /** One turn of the import loop went through. */
  ghost predicate Passes(p: Pool, layer: RemoteLayer, top: Option<Name>, p': Pool, top': Option<Name>) {
    && layer.virterLayer && top'.Some?
    && if Layer(layer.blob.id) in p then p' == p && top' == Some(Layer(layer.blob.id))
       else FetchedLayer(p, layer.blob, top, p', top'.value)
  }

  /** The first i turns went through, whatever failed during them without being noticed. */
  ghost predicate Reached(p: Pool, layers: seq<RemoteLayer>, i: nat, p': Pool, top': Option<Name>)
    requires i <= |layers|
    decreases i, 0
  {
    if i == 0 then p' == p && top' == None else TurnAfter(p, layers, i - 1, p', top')
  }

  ghost predicate TurnAfter(p: Pool, layers: seq<RemoteLayer>, i: nat, p': Pool, top': Option<Name>)
    requires i < |layers|
    decreases i, 1
  {
    exists q, top :: Reached(p, layers, i, q, top) && Passes(q, layers[i], top, p', top')
  }

  ghost predicate BreaksOffAt(p: Pool, layers: seq<RemoteLayer>, i: nat, q: Pool, top: Option<Name>, p': Pool,
                              del: bool)
    requires i < |layers|
  {
    && Reached(p, layers, i, q, top)
    && (|| p' == q
        || (&& layers[i].virterLayer && Layer(layers[i].blob.id) !in q
            && FetchBroken(q, layers[i].blob, top, p', del)))
  }

  ghost predicate LoopBreaksOff(p: Pool, layers: seq<RemoteLayer>, p': Pool, del: bool) {
    exists i, q, top :: 0 <= i < |layers| && BreaksOffAt(p, layers, i, q, top, p', del)
  }

  ghost predicate LoopFinishes(p: Pool, layers: seq<RemoteLayer>, image: string, p': Pool) {
    exists q, top :: Reached(p, layers, |layers|, q, top)
                     && if top.Some? then RetagOutcome(q, image, top.value, p') else p' == q
  }

  /** ImageImport goes through or breaks off, during its loop or in the retagging after it. */
  ghost predicate ImportOutcome(p: Pool, name: string, image: RemoteImage, p': Pool, del: bool) {
    || p' == p
    || (image.virterImage && (LoopBreaksOff(p, image.layers, p', del) || LoopFinishes(p, image.layers, name, p')))
  }

  /** A conversion, followed by retagging if it succeeded. */
  ghost predicate ConvertedAndTagged(p: Pool, n: Name, id: Hash, image: string, q: Pool, got: Option<Name>, p': Pool,
                                     del: bool)
  {
    && Conversion(p, n, Layer(id), q, got, del)
    && if got.Some? then RetagOutcome(q, image, got.value, p') else p' == q
  }

  ghost predicate EndsTagged(p: Pool, n: Name, id: Hash, image: string, p': Pool, del: bool) {
    exists q, got :: ConvertedAndTagged(p, n, id, image, q, got, p', del)
  }

  /** ImageImportFromReader goes through or breaks off. */
  ghost predicate StreamOutcome(p: Pool, image: string, bytes: Bytes, id: Hash, p': Pool, del: bool) {
    var dyn := Work(image);
    || p' == p
    || (dyn !in p && del && Adds(p, p', {dyn}, None))
    || (dyn !in p && EndsTagged(p[dyn := Vol(None, bytes)], dyn, id, image, p', del))
  }

  ghost predicate SpawnOutcome(p: Pool, name: string, top: Option<Name>, p': Pool) {
    p' == p || p' == Spawn(p, name, top).pool
  }

  /** A sound part of the pool from which nothing has gone but garbage. */
  ghost predicate PartlySwept(p: Pool, p': Pool) {
    Sound(p') && Submap(p', p) && Sweep(p') == Sweep(p)
  }

  // ---------------------------------------------------------------- tags

  /** The top layer of an image, or None if there is no such image. */
  method FindImage(c: Connection, image: string) returns (r: Result<Option<Option<Name>>, Error>)
    modifies c`faults
    ensures r.Success? ==> c.faults == old(c.faults)
    ensures r.Success? ==> r.value.Some? == (Tag(image) in c.vols)
    ensures r.Success? && r.value.Some? ==> Dependency(c.vols, Tag(image)) == Success(r.value.value)
    ensures r.Failure? && c.faults == old(c.faults) ==>
              Tag(image) in c.vols && Dependency(c.vols, Tag(image)) == Failure(r.error)
    ensures c.faults >= old(c.faults)
  {
    var found :- FindRawLayer(c, Tag(image));
    if !found {
      return Success(None);
    }
    var top :- ReadDependency(c, Tag(image));
    return Success(Some(top));
  }

  /**
   Points a tag at a layer.  Without failing calls this is Retag; whatever fails, only the
   chain of the old tag can have been collected, as far as it was unused.
   */
  method MakeImage(c: Connection, image: string, top: Name) returns (r: Outcome<Error>)
    requires top.Layer? || top == Foreign("")
    modifies c`vols, c`faults, c`deleteFaults
    ensures c.faults >= old(c.faults) && c.deleteFaults >= old(c.deleteFaults)
    ensures c.faults == old(c.faults) ==> Changed(c.vols, r) == Retag(old(c.vols), image, top)
    ensures c.faults != old(c.faults) ==> r.Fail?
    ensures RetagOutcome(old(c.vols), image, top, c.vols)
    ensures Sound(old(c.vols)) ==> Sound(c.vols)
  {
    var tag := Tag(image);
    assert CollectUpTo(c.vols, tag, 0) == c.vols;
    var existing := FindRawLayer(c, tag);
    if existing.Failure? {
      return Fail(existing.error);
    }
    ghost var k: nat := 0;
    if existing.value {
      var dep := ReadDependency(c, tag);
      if dep.Failure? {
        return Fail(dep.error);
      }
      if dep.value.None? {
        return Fail(NilLayer);
      }
      if !top.Layer? {
        return Fail(NonVirterVolume);
      }
      if dep.value.value == top {
        return Pass;
      }
      var count, o := DeleteAllIfUnused(c, tag);
      k := count;
      InterruptedCollectIf(old(c.vols), tag, k);
      CollectDropsRoot(old(c.vols), tag);
      if o.Fail? {
        return o;
      }
    }
    label collected:
    r := EmptyVolume(c, tag, Some(top));
    if r.Pass? && Sound(old(c.vols)) {
      CreateSound(old@collected(c.vols), tag, Vol(Some(top), []));
    }
  }

  lemma {:induction false} InterruptedCollectIf(p: Pool, n: Name, k: nat)
    ensures Sound(p) ==> Sound(CollectUpTo(p, n, k))
  {
    if Sound(p) {
      InterruptedCollect(p, n, k);
    }
  }

  method ImageRm(c: Connection, image: string) returns (r: Outcome<Error>)
    modifies c`vols, c`faults, c`deleteFaults
    ensures c.faults >= old(c.faults) && c.deleteFaults >= old(c.deleteFaults)
    ensures c.faults == old(c.faults) ==> Changed(c.vols, r) == RemoveImage(old(c.vols), image)
    ensures c.faults != old(c.faults) ==> r.Fail?
    ensures RemoveOutcome(old(c.vols), image, c.vols)
    ensures Sound(old(c.vols)) ==> Sound(c.vols)
  {
    assert CollectUpTo(c.vols, Tag(image), 0) == c.vols;
    var img := FindImage(c, image);
    if img.Failure? {
      return Fail(img.error);
    }
    if img.value.None? {
      return Pass;
    }
    var count, o := DeleteAllIfUnused(c, Tag(image));
    InterruptedCollectIf(old(c.vols), Tag(image), count);
    return o;
  }

  method ImageSpawn(c: Connection, name: string, top: Option<Name>) returns (r: Outcome<Error>)
    requires top.Some? ==> top.value.Layer?
    modifies c`vols, c`faults
    ensures c.faults >= old(c.faults)
    ensures c.faults == old(c.faults) ==> Changed(c.vols, r) == Spawn(old(c.vols), name, top)
    ensures r.Pass? ==> c.faults == old(c.faults)
    ensures r.Fail? ==> c.vols == old(c.vols)
    ensures Sound(old(c.vols)) ==> Sound(c.vols)
  {
    r := NewDynamicLayer(c, name, top);
    if r.Pass? && Sound(old(c.vols)) {
      CreateSound(old(c.vols), Work(name), Vol(top, []));
    }
  }

  // ---------------------------------------------------------------- importing

  /** A new working volume with the given content; if the transfer fails it is deleted again. */
  method NewUploaded(c: Connection, name: string, backing: Option<Name>, bytes: Bytes) returns (r: Outcome<Error>)
    requires backing.Some? ==> backing.value.Layer? || backing.value == Foreign("")
    modifies c`vols, c`faults, c`deleteFaults
    ensures c.faults >= old(c.faults) && c.deleteFaults >= old(c.deleteFaults)
    ensures r.Pass? ==> c.faults == old(c.faults) && Work(name) !in old(c.vols)
                        && (backing.Some? ==> backing.value in old(c.vols))
                        && c.vols == old(c.vols)[Work(name) := Vol(backing, bytes)]
    ensures c.faults == old(c.faults) ==> c.deleteFaults == old(c.deleteFaults)
    ensures r.Fail? ==>
              || c.vols == old(c.vols)
              || (c.deleteFaults != old(c.deleteFaults) && CanCreate(old(c.vols), Work(name), backing)
                  && Adds(old(c.vols), c.vols, {Work(name)}, backing))
    ensures r.Pass? ==> c.deleteFaults == old(c.deleteFaults)
    ensures r.Fail? && c.faults == old(c.faults) ==>
              r.error == if backing.Some? && backing.value !in c.vols then NoStorageVol else AlreadyExists
    ensures r.Fail? && c.faults == old(c.faults) && r.error == AlreadyExists ==> Work(name) in c.vols
    ensures Sound(old(c.vols)) ==> Sound(c.vols)
  {
    r := NewDynamicLayer(c, name, backing);
    if r.Fail? {
      return;
    }
    r := c.UploadVolume(Work(name), bytes);
    assert c.vols == old(c.vols)[Work(name) := Vol(backing, c.vols[Work(name)].bytes)];
    if Sound(old(c.vols)) {
      CreateSound(old(c.vols), Work(name), c.vols[Work(name)]);
    }
    if r.Fail? {
      var ignored := Delete(c, Work(name));
      assert ignored.Pass? ==> c.vols == old(c.vols);
    }
  }

  /** Stores one downloaded layer on top of the previous one. */
  method ImportLayer(c: Connection, blob: Blob, top: Option<Name>) returns (r: Result<Name, Error>)
    requires top.Some? ==> top.value.Layer? || top.value == Foreign("")
    requires Layer(blob.id) !in c.vols
    modifies c`vols, c`faults, c`deleteFaults
    ensures c.faults >= old(c.faults) && c.deleteFaults >= old(c.deleteFaults)
    ensures c.faults == old(c.faults) ==>
              var next := ImportLayers(old(c.vols), [RemoteLayer(blob, true)], top);
              && c.vols == next.pool
              && r == if next.outcome.Fail? then Failure(next.outcome.error) else Success(Layer(blob.id))
    ensures match r
            case Success(got) =>
              FetchedLayer(old(c.vols), blob, top, c.vols, got) && c.deleteFaults == old(c.deleteFaults)
            case Failure(_) => FetchBroken(old(c.vols), blob, top, c.vols, c.deleteFaults != old(c.deleteFaults))
    ensures Sound(old(c.vols)) ==> Sound(c.vols)
  {
    var ok := c.Call(); // opening the compressed layer
    if !ok {
      return Failure(LibvirtFailure);
    }
    var dyn := Work(ImportName(blob.id));
    var created := NewUploaded(c, ImportName(blob.id), top, blob.bytes);
    if created.Fail? {
      return Failure(created.error);
    }
    r := StoreUploaded(c, blob, top, old(c.vols));
    FetchSoundIf(old(c.vols), blob, top, c.vols, Got(r));
  }

  /** The uploaded working volume becomes the layer, or is deleted. */
  method StoreUploaded(c: Connection, blob: Blob, top: Option<Name>, ghost p: Pool) returns (r: Result<Name, Error>)
    requires Layer(blob.id) !in p && CanCreate(p, Work(ImportName(blob.id)), top)
    requires c.vols == p[Work(ImportName(blob.id)) := Vol(top, blob.bytes)]
    modifies c`vols, c`faults, c`deleteFaults
    ensures c.faults >= old(c.faults) && c.deleteFaults >= old(c.deleteFaults)
    ensures c.faults == old(c.faults) ==>
              c.vols == p[Layer(blob.id) := Vol(top, blob.bytes)] && r == Success(Layer(blob.id))
    ensures match r
            case Success(got) => FetchedLayer(p, blob, top, c.vols, got) && c.deleteFaults == old(c.deleteFaults)
            case Failure(_) => FetchBroken(p, blob, top, c.vols, c.deleteFaults != old(c.deleteFaults))
  {
    var dyn := Work(ImportName(blob.id));
    r := ToVolumeLayer(c, dyn, Some(blob.id));
    FetchEnds(p, blob, top, c.vols, Got(r), c.deleteFaults != old(c.deleteFaults));
    if r.Failure? {
      var ignored := Delete(c, dyn);
    }
  }

  lemma {:induction false} FetchEnds(p: Pool, blob: Blob, top: Option<Name>, p': Pool, got: Option<Name>, del: bool)
    requires Layer(blob.id) !in p && CanCreate(p, Work(ImportName(blob.id)), top)
    requires Conversion(p[Work(ImportName(blob.id)) := Vol(top, blob.bytes)], Work(ImportName(blob.id)), Layer(blob.id),
                        p', got, del)
    ensures match got
            case Some(m) => FetchedLayer(p, blob, top, p', m)
            case None =>
              && FetchBroken(p, blob, top, p' - {Work(ImportName(blob.id))}, del)
              && FetchBroken(p, blob, top, p', true)
  {
    var dyn, layer := Work(ImportName(blob.id)), Layer(blob.id);
    var q := p[dyn := Vol(top, blob.bytes)];
    assert q - {dyn} == p && q - {layer} == q;
    if CopyOf(q, dyn, layer, p') {
      assert p'.Keys == p.Keys + {dyn, layer};
      assert Adds(p, p' - {dyn}, {layer}, top);
    } else if got.Some? && Moved(q, dyn, layer, p') {
      assert p'.Keys == p.Keys + {layer};
    } else {
      assert q.Keys == p.Keys + {dyn};
    }
  }

  lemma {:induction false} AddSound(p: Pool, p': Pool, n: Name, backing: Option<Name>)
    requires Sound(p) && Adds(p, p', {n}, backing) && CanCreate(p, n, backing)
    requires !n.Foreign? && (backing.Some? ==> backing.value.Layer? || backing.value == Foreign(""))
    ensures Sound(p')
  {
    CreateSound(p, n, p'[n]);
    assert p' == p[n := p'[n]];
  }

  /** However storing a layer ends, the pool is sound. */
  lemma {:induction false} FetchSoundIf(p: Pool, blob: Blob, top: Option<Name>, p': Pool, got: Option<Name>)
    requires Layer(blob.id) !in p && (top.Some? ==> top.value.Layer? || top.value == Foreign(""))
    requires if got.Some? then FetchedLayer(p, blob, top, p', got.value) else FetchBroken(p, blob, top, p', true)
    ensures Sound(p) ==> Sound(p')
  {
    var dyn, layer := Work(ImportName(blob.id)), Layer(blob.id);
    if Sound(p) && p' != p {
      if Adds(p, p', {layer}, top) {
        AddSound(p, p', layer, top);
      } else if Adds(p, p', {dyn}, top) {
        AddSound(p, p', dyn, top);
      } else {
        var q := p' - {dyn};
        AddSound(p, q, layer, top);
        AddSound(q, p', dyn, top);
      }
    }
  }

  /** ImageImport; layers already present are taken as they are, by digest alone. */
  method ImageImport(c: Connection, name: string, image: RemoteImage) returns (r: Outcome<Error>)
    modifies c`vols, c`faults, c`deleteFaults
    ensures c.faults >= old(c.faults) && c.deleteFaults >= old(c.deleteFaults)
    ensures c.faults == old(c.faults) ==> Changed(c.vols, r) == Import(old(c.vols), name, image)
    ensures ImportOutcome(old(c.vols), name, image, c.vols, c.deleteFaults != old(c.deleteFaults))
    ensures Sound(old(c.vols)) ==> Sound(c.vols)
  {
    var ok := c.Call(); // fetching the manifest
    if !ok {
      return Fail(LibvirtFailure);
    }
    if !image.virterImage {
      return Fail(NonVirterVolume);
    }
    var top: Option<Name> := None;
    for i := 0 to |image.layers|
      invariant c.faults >= old(c.faults) && c.deleteFaults >= old(c.deleteFaults)
      invariant top.Some? ==> top.value.Layer? || top.value == Foreign("")
      invariant c.faults == old(c.faults) ==>
                  ImportLayers(old(c.vols), image.layers, None) == ImportLayers(c.vols, image.layers[i..], top)
      invariant c.deleteFaults == old(c.deleteFaults) && Reached(old(c.vols), image.layers, i, c.vols, top)
      invariant Sound(old(c.vols)) ==> Sound(c.vols)
    {
      var rest := image.layers[i..];
      assert rest[0] == image.layers[i] && rest[1..] == image.layers[i + 1..];
      var layer := image.layers[i];
      assert BreaksOffAt(old(c.vols), image.layers, i, c.vols, top, c.vols, false);
      if !layer.virterLayer {
        return Fail(WrongMediaType);
      }
      var existing := FindRawLayer(c, Layer(layer.blob.id));
      if existing.Failure? {
        return Fail(existing.error);
      }
      if existing.value {
        top := Some(Layer(layer.blob.id));
        continue;
      }
      ghost var p := c.vols;
      var stored := ImportLayer(c, layer.blob, top);
      if stored.Failure? {
        assert BreaksOffAt(old(c.vols), image.layers, i, p, top, c.vols, c.deleteFaults != old(c.deleteFaults));
        return Fail(stored.error);
      }
      top := Some(stored.value);
    }
    assert image.layers[|image.layers|..] == [];
    if top.None? {
      return Fail(EmptyImage);
    }
    r := MakeImage(c, name, top.value);
  }

  /** Imports a stand-alone disk image; its digest is taken while the stream is uploaded. */
  method ImageImportFromReader(c: Connection, image: string, bytes: Bytes) returns (r: Outcome<Error>)
    modifies c`vols, c`faults, c`deleteFaults
    ensures c.faults >= old(c.faults) && c.deleteFaults >= old(c.deleteFaults)
    ensures c.faults == old(c.faults) ==>
              Changed(c.vols, r) == ImportRaw(old(c.vols), image, bytes, c.digest(Vol(None, bytes)))
    ensures StreamOutcome(old(c.vols), image, bytes, c.digest(Vol(None, bytes)), c.vols,
                          c.deleteFaults != old(c.deleteFaults))
    ensures var layer := Layer(c.digest(Vol(None, bytes)));
            Sound(old(c.vols)) && (c.deleteFaults == old(c.deleteFaults) || !Referenced(old(c.vols), layer)) ==>
              Sound(c.vols)
  {
    var dyn := Work(image);
    r := NewUploaded(c, image, None, bytes);
    if r.Fail? {
      return;
    }
    var id := c.digest(Vol(None, bytes));
    if !Referenced(old(c.vols), Layer(id)) {
      assert !Referenced(c.vols, Layer(id)) by {
        forall child | child in c.vols ensures !DependsOn(c.vols, child, Layer(id)) {
          assert child != dyn ==> !DependsOn(old(c.vols), child, Layer(id));
        }
      }
    }
    ghost var uploaded := c.vols;
    label uploading:
    var layer := ToVolumeLayer(c, dyn, Some(id));
    ghost var del := c.deleteFaults != old@uploading(c.deleteFaults);
    ConversionSoundIf(uploaded, dyn, Layer(id), c.vols, Got(layer), del);
    if layer.Failure? {
      assert ConvertedAndTagged(uploaded, dyn, id, image, c.vols, None, c.vols, del);
      return Fail(layer.error);
    }
    if c.faults == old(c.faults) {
      assert c.vols == if Layer(id) in old(c.vols) then old(c.vols) else old(c.vols)[Layer(id) := Vol(None, bytes)];
    }
    ghost var converted := c.vols;
    r := MakeImage(c, image, layer.value);
    assert ConvertedAndTagged(uploaded, dyn, id, image, converted, Some(layer.value), c.vols,
                              c.deleteFaults != old(c.deleteFaults));
  }

  // ---------------------------------------------------------------- listing layers

  function Blobs(p: Pool, q: seq<Name>): seq<Blob>
    requires forall i :: 0 <= i < |q| ==> q[i].Layer? && q[i] in p
  {
    seq(|q|, i requires 0 <= i < |q| => Blob(q[i].hash, p[q[i]].bytes))
  }

  /** blobs lists the chain of `top`, base first. */
  ghost predicate LayersOf(p: Pool, top: Name, blobs: seq<Blob>) {
    exists q :: ChainBlobs(p, top, q, blobs)
  }

  ghost predicate ChainBlobs(p: Pool, top: Name, q: seq<Name>, blobs: seq<Blob>) {
    && Stack(p, q) && q[|q| - 1] == top
    && (forall i :: 0 <= i < |q| ==> q[i].Layer? && q[i] in p)
    && blobs == Blobs(p, q)
  }

  /** A layer has one list only. */
  lemma {:induction false} LayersUnique(p: Pool, top: Name, a: seq<Blob>, b: seq<Blob>)
    requires LayersOf(p, top, a) && LayersOf(p, top, b)
    ensures a == b
  {
    var q: seq<Name> :| ChainBlobs(p, top, q, a);
    var r: seq<Name> :| ChainBlobs(p, top, r, b);
    StackUnique(p, q, r);
  }

  /** And in a sound pool it has one. */
  lemma {:induction false} LayersExist(p: Pool, top: Name) returns (blobs: seq<Blob>)
    requires Sound(p) && top.Layer? && top in p
    ensures LayersOf(p, top, blobs)
  {
    var rank :| Ranked(p, rank);
    var q := StackExists(p, rank, top);
    PathMembers(p, q);
    forall i | 0 <= i < |q| ensures q[i].Layer? {
      assert i < |q| - 1 ==> DependsOn(p, q[i + 1], q[i]);
    }
    blobs := Blobs(p, q);
    assert ChainBlobs(p, top, q, blobs);
  }

  /** The walk from the top has listed q and goes on at cur. */
  ghost predicate WalkedTo(p: Pool, top: Option<Name>, cur: Option<Name>, q: seq<Name>) {
    && (forall i :: 0 <= i < |q| ==> q[i].Layer? && q[i] in p)
    && (cur.Some? ==> cur.value.Layer? && (q != [] ==> cur.value in p))
    && if q == [] then cur == top
       else top.Some? && Path(p, q) && q[|q| - 1] == top.value && Dependency(p, q[0]) == Success(cur)
  }

  lemma {:induction false} WalkOn(p: Pool, top: Option<Name>, n: Name, q: seq<Name>, dep: Option<Name>)
    requires Sound(p) && WalkedTo(p, top, Some(n), q) && Dependency(p, n) == Success(dep)
    ensures WalkedTo(p, top, dep, [n] + q)
    ensures Blobs(p, [n] + q) == [Blob(n.hash, p[n].bytes)] + Blobs(p, q)
  {
    assert BackingPresent(p, n);
    if q != [] {
      PathPrepend(p, n, q);
    }
  }

  lemma {:induction false} WalkEnds(p: Pool, top: Name, q: seq<Name>)
    requires Sound(p) && WalkedTo(p, Some(top), None, q)
    ensures LayersOf(p, top, Blobs(p, q))
  {
    assert BackingPresent(p, q[0]);
    assert ChainBlobs(p, top, q, Blobs(p, q));
  }

  class LocalImage {
    const tag: Name
    const top: Option<Name>
    var layers: seq<Blob>

    constructor (tag: Name, top: Option<Name>)
      ensures this.tag == tag && this.top == top && layers == []
    {
      this.tag, this.top, layers := tag, top, [];
    }

    /** Walks from the top layer to the base, once; later calls answer from the cache. */
    method Layers(c: Connection) returns (r: Result<seq<Blob>, Error>)
      requires Sound(c.vols)
      requires top.Some? ==> top.value.Layer?
      modifies this, c`faults
      ensures c.faults >= old(c.faults)
      ensures old(layers) != [] ==> r == Success(old(layers)) && layers == old(layers)
      ensures r.Success? ==> layers == r.value
      ensures c.faults == old(c.faults) && old(layers) == [] && top.Some? && top.value in c.vols ==>
                r.Success? && LayersOf(c.vols, top.value, r.value)
      ensures old(layers) == [] && top.None? ==> r == Success([])
      ensures r.Failure? && c.faults == old(c.faults) ==> top.Some? && top.value !in c.vols
    {
      if layers != [] {
        return Success(layers);
      }
      var found: seq<Blob> := [];
      var cur := top;
      ghost var rank :| Ranked(c.vols, rank);
      ghost var q: seq<Name> := [];
      while cur.Some?
        invariant layers == old(layers) && c.faults >= old(c.faults)
        invariant WalkedTo(c.vols, top, cur, q)
        invariant |found| == |q|
        invariant c.faults == old(c.faults) ==> found == Blobs(c.vols, q)
        decreases if cur.Some? && cur.value in c.vols then 2 + rank[cur.value] else if cur.Some? then 1 else 0
      {
        var n := cur.value;
        var file, o := c.DownloadVolume(n); // a broken download is only logged
        found := [Blob(n.hash, file.bytes)] + found;
        var dep :- ReadDependency(c, n);
        WalkOn(c.vols, top, n, q, dep);
        q := [n] + q;
        assert dep.Some? ==> DependsOn(c.vols, n, dep.value);
        cur := dep;
      }
      layers := found;
      if top.Some? && c.faults == old(c.faults) {
        WalkEnds(c.vols, top.value, q);
      }
      return Success(layers);
    }

    /** The digests of the layers, base first, for the image's configuration. */
    method ConfigFile(c: Connection) returns (r: Result<seq<Hash>, Error>)
      requires Sound(c.vols)
      requires top.Some? ==> top.value.Layer?
      modifies this, c`faults
      ensures r.Success? ==> |r.value| == |layers| && forall i :: 0 <= i < |layers| ==> r.value[i] == layers[i].id
      ensures c.faults == old(c.faults) && old(layers) == [] && top.Some? && top.value in c.vols ==>
                r.Success? && LayersOf(c.vols, top.value, layers)
    {
      var blobs :- Layers(c);
      var ids := [];
      for i := 0 to |blobs|
        invariant |ids| == i && forall j :: 0 <= j < i ==> ids[j] == blobs[j].id
      {
        ids := ids + [blobs[i].id];
      }
      return Success(ids);
    }
  }

  // ---------------------------------------------------------------- pruning

  method LayerList(c: Connection) returns (r: Result<seq<Name>, Error>)
    modifies c`faults
    ensures r.Success? ==> c.faults == old(c.faults) && forall n :: n in r.value <==> n in c.vols && n.Layer?
    ensures r.Failure? ==> c.faults > old(c.faults)
  {
    var vols :- c.ListVolumes();
    var layers := [];
    for i := 0 to |vols|
      invariant forall n: Name :: n in layers <==> n.Layer? && n in vols[..i]
    {
      if vols[i].Layer? {
        layers := layers + [vols[i]];
      }
    }
    assert vols[..|vols|] == vols;
    return Success(layers);
  }

  /**
   Tries every layer once, carrying on after errors.  If nothing fails this leaves exactly what
   mark-and-sweep would; whatever fails, nothing in use is lost.
   */
  method PruneLayers(c: Connection) returns (r: Outcome<Error>)
    requires Sound(c.vols)
    modifies c`vols, c`faults, c`deleteFaults
    ensures c.faults == old(c.faults) ==> r.Pass? && c.vols == Sweep(old(c.vols))
    ensures Sound(c.vols) && Submap(c.vols, old(c.vols)) && Sweep(c.vols) == Sweep(old(c.vols))
    ensures c.faults >= old(c.faults) && c.deleteFaults >= old(c.deleteFaults)
  {
    var list := LayerList(c);
    if list.Failure? {
      return Fail(list.error);
    }
    var layers := list.value;
    PruneIsSweep(c.vols, layers);
    for i := 0 to |layers|
      invariant c.faults == old(c.faults) ==> Prune(old(c.vols), layers) == Prune(c.vols, layers[i..])
      invariant Sound(c.vols) && Submap(c.vols, old(c.vols)) && Sweep(c.vols) == Sweep(old(c.vols))
      invariant c.faults >= old(c.faults) && c.deleteFaults >= old(c.deleteFaults)
    {
      assert layers[i..][0] == layers[i] && layers[i..][1..] == layers[i + 1..];
      label before:
      var count, ignored := DeleteAllIfUnused(c, layers[i]);
      InterruptedCollect(old@before(c.vols), layers[i], count);
    }
    assert layers[|layers|..] == [];
    return Pass;
  }

  /** Tags with their top layers; a tag whose top layer cannot be read is left out. */
  method ImageList(c: Connection) returns (r: Result<seq<(Name, Name)>, Error>)
    modifies c`faults
    ensures c.faults >= old(c.faults)
    ensures r.Failure? ==> c.faults > old(c.faults)
    ensures r.Success? ==> forall i :: 0 <= i < |r.value| ==> IsImage(c.vols, r.value[i])
    ensures r.Success? ==> forall i, j :: 0 <= i < j < |r.value| ==> r.value[i].0 != r.value[j].0
    ensures r.Success? && c.faults == old(c.faults) ==> forall x :: IsImage(c.vols, x) ==> x in r.value
  {
    var vols :- c.ListVolumes();
    var images := [];
    for i := 0 to |vols|
      invariant c.faults >= old(c.faults)
      invariant forall j :: 0 <= j < |images| ==> IsImage(c.vols, images[j]) && images[j].0 in vols[..i]
      invariant forall j, k :: 0 <= j < k < |images| ==> images[j].0 != images[k].0
      invariant c.faults == old(c.faults) ==>
                  forall x :: IsImage(c.vols, x) && x.0 in vols[..i] ==> x in images
    {
      if vols[i].Tag? {
        var top := ReadDependency(c, vols[i]);
        if top.Success? && top.value.Some? {
          images := images + [(vols[i], top.value.value)];
        }
      }
    }
    assert vols[..|vols|] == vols;
    return Success(images);
  }

  predicate IsImage(p: Pool, x: (Name, Name)) {
    x.0.Tag? && x.0 in p && DependsOn(p, x.0, x.1)
  }

  /** One listed image of the command's first loop. */
  method RemoveIfExpired(c: Connection, tag: Name, top: Name, isExpired: bool) returns (r: Outcome<Error>)
    requires Sound(c.vols) && IsImage(c.vols, (tag, top))
    modifies c`vols, c`faults, c`deleteFaults
    ensures c.faults >= old(c.faults) && Sound(c.vols)
    ensures c.faults != old(c.faults) ==> r.Fail?
    ensures c.faults == old(c.faults) ==>
              r.Pass? && c.vols == if isExpired then Collect(old(c.vols), tag).pool else old(c.vols)
  {
    assert BackingPresent(c.vols, tag);
    var desc := c.DescribeVolume(top);
    if desc.Failure? {
      return Fail(desc.error);
    }
    if isExpired {
      CollectSucceeds(c.vols, tag);
      r := ImageRm(c, tag.image);
    } else {
      r := Pass;
    }
  }

  /** Removes the images whose top layer has not been read for long enough. */
  method RemoveExpired(c: Connection, expired: Name -> bool) returns (r: Outcome<Error>)
    requires Sound(c.vols)
    modifies c`vols, c`faults, c`deleteFaults
    ensures Sound(c.vols) && c.faults >= old(c.faults)
    ensures c.faults == old(c.faults) ==>
              r.Pass? && Sweep(c.vols) == Sweep(old(c.vols) - ExpiredTags(old(c.vols), expired))
  {
    ghost var p := c.vols;
    var list := ImageList(c);
    if list.Failure? {
      return Fail(list.error);
    }
    var images := list.value;
    ghost var gone: set<Name> := {};
    assert p - gone == p;
    ghost var faults := c.faults;
    for i := 0 to |images|
      invariant c.faults == faults && ExpiredSoFar(p, c.vols, images, i, expired, gone)
    {
      var (tag, top) := images[i];
      ExpiredStep(p, c.vols, images, i, expired, gone);
      r := RemoveIfExpired(c, tag, top, expired(top));
      if r.Fail? {
        return;
      }
      if expired(top) {
        gone := gone + {tag};
      }
    }
    if c.faults == old(c.faults) {
      forall n | n in ExpiredTags(p, expired) ensures n in gone {
        assert (n, Dependency(p, n).value.value) in images;
      }
      assert gone == ExpiredTags(p, expired);
    }
    return Pass;
  }

  /** After the first i images: the expired ones among them are gone, and with them what they alone kept. */
  ghost predicate ExpiredSoFar(p: Pool, p': Pool, images: seq<(Name, Name)>, i: nat, expired: Name -> bool,
                               gone: set<Name>)
    requires i <= |images|
  {
    && Sound(p') && Submap(p', p)
    && (forall j :: 0 <= j < |images| ==> IsImage(p, images[j]))
    && (forall j, k :: 0 <= j < k < |images| ==> images[j].0 != images[k].0)
    && gone == (set j | 0 <= j < i && expired(images[j].1) :: images[j].0)
    && (forall n :: n in p && !n.Layer? && n !in gone ==> n in p')
    && Sweep(p') == Sweep(p - gone)
  }

  lemma {:induction false} ExpiredStep(p: Pool, p': Pool, images: seq<(Name, Name)>, i: nat, expired: Name -> bool,
                                       gone: set<Name>)
    requires i < |images| && ExpiredSoFar(p, p', images, i, expired, gone)
    ensures IsImage(p', images[i])
    ensures var (tag, top) := images[i];
            if expired(top) then ExpiredSoFar(p, Collect(p', tag).pool, images, i + 1, expired, gone + {tag})
            else ExpiredSoFar(p, p', images, i + 1, expired, gone)
  {
    var (tag, top) := images[i];
    assert IsImage(p, images[i]);
    assert tag in p' && p'[tag] == p[tag];
    if expired(top) {
      RemoveOne(p', p - gone, tag);
      assert p - gone - {tag} == p - (gone + {tag});
    }
  }

  /**
   The whole command: with `deleteUnused`, images that have expired go first, then the layers
   are pruned.
   */
  method ImagePrune(c: Connection, deleteUnused: bool, expired: Name -> bool) returns (r: Outcome<Error>)
    requires Sound(c.vols)
    modifies c`vols, c`faults, c`deleteFaults
    ensures c.faults == old(c.faults) ==>
              && r.Pass?
              && c.vols == Sweep(old(c.vols) - if deleteUnused then ExpiredTags(old(c.vols), expired) else {})
    ensures Sound(c.vols)
  {
    assert c.vols - {} == c.vols;
    if deleteUnused {
      r := RemoveExpired(c, expired);
      if r.Fail? {
        return;
      }
    }
    r := PruneLayers(c);
  }

  /** A tag with a top layer that counts as expired. */
  predicate IsExpired(p: Pool, expired: Name -> bool, n: Name) {
    n.Tag? && match Dependency(p, n) case Success(Some(top)) => expired(top) case _ => false
  }

  /** Pruning takes away the tags of expired images if it is asked to, and no other tag or working volume. */
  lemma {:induction false} PruneKeepsRoots(p: Pool, deleteUnused: bool, expired: Name -> bool, n: Name)
    requires !n.Layer?
    ensures n in Sweep(p - if deleteUnused then ExpiredTags(p, expired) else {})
            <==> n in p && !(deleteUnused && n.Tag? && exists top :: DependsOn(p, n, top) && expired(top))
  {
    RootsAreSwept(p - if deleteUnused then ExpiredTags(p, expired) else {}, n);
    if IsExpired(p, expired, n) {
      assert DependsOn(p, n, Dependency(p, n).value.value);
    }
  }

  function ExpiredTags(p: Pool, expired: Name -> bool): set<Name> {
    set n | n in p && IsExpired(p, expired, n)
  }

  lemma {:induction false} RemoveOne(p: Pool, p': Pool, n: Name)
    requires Sound(p) && n.Tag? && Dependency(p, n).Success?
    ensures var r := Collect(p, n);
            && r.outcome.Pass? && Sound(r.pool) && Submap(r.pool, p)
            && (forall x :: x in p && !x.Layer? && x != n ==> x in r.pool)
            && (Sweep(p) == Sweep(p') ==> Sweep(r.pool) == Sweep(p' - {n}))
  {
    CollectSound(p, n);
    CollectSucceeds(p, n);
    CollectDropsRoot(p, n);
    assert Dropped(Collect(p, n).pool, n) == Collect(p, n).pool;
    if Sweep(p) == Sweep(p') {
      SweepDrop(p, p', {n});
    }
  }
}

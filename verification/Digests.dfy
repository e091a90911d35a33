/**
 What naming layers by their digest buys: one digest stands for a whole chain.  The digest is any
 injective function of a file, and a file includes the name of its backing layer.
 */
module Digests {
  import opened Errors
  import opened Wrappers
  import opened Volumes
  import opened Collector
  import opened Layers
  import opened Images

  ghost predicate Injective(digest: Vol -> Hash) {
    forall a, b :: NoCollision(digest, a, b)
  }

  ghost predicate NoCollision(digest: Vol -> Hash, a: Vol, b: Vol) {
    digest(a) == digest(b) ==> a == b
  }

  /** Every layer is named by its own digest. */
  ghost predicate ContentAddressed(p: Pool, digest: Vol -> Hash) {
    forall n :: n in p && n.Layer? ==> digest(p[n]) == n.hash
  }

  /** The backing of the i-th layer of a list. */
  function Below(blobs: seq<Blob>, i: nat): Option<Name>
    requires i <= |blobs|
  {
    if i == 0 then None else Some(Layer(blobs[i - 1].id))
  }

  function Stored(blobs: seq<Blob>, i: nat): Vol
    requires i < |blobs|
  {
    Vol(Below(blobs, i), blobs[i].bytes)
  }

  ghost predicate RightDigest(blobs: seq<Blob>, digest: Vol -> Hash, i: nat)
    requires i < |blobs|
  {
    blobs[i].id == digest(Stored(blobs, i))
  }

  /** A list of layers, base first, each listed under the digest of its content on its predecessor. */
  ghost predicate WellFormed(blobs: seq<Blob>, digest: Vol -> Hash) {
    && |blobs| > 0
    && forall i :: 0 <= i < |blobs| ==> RightDigest(blobs, digest, i)
  }

  function Ids(blobs: seq<Blob>): seq<Hash> {
    seq(|blobs|, i requires 0 <= i < |blobs| => blobs[i].id)
  }

  // ---------------------------------------------------------------- chains and digests

  /** What is found by walking a content-addressed pool is a well-formed list. */
  lemma {:induction false} ChainsAreWellFormed(p: Pool, digest: Vol -> Hash, top: Name, blobs: seq<Blob>)
    requires ContentAddressed(p, digest) && LayersOf(p, top, blobs)
    ensures WellFormed(blobs, digest) && top == Layer(blobs[|blobs| - 1].id)
  {
    var q: seq<Name> :| ChainBlobs(p, top, q, blobs);
    forall i | 0 <= i < |blobs| ensures RightDigest(blobs, digest, i) {
      assert digest(p[q[i]]) == q[i].hash;
      if i > 0 {
        assert DependsOn(p, q[i], q[i - 1]);
      }
    }
  }

  /** Equal last digests, equal lists: contents, digests and lengths. */
  lemma {:induction false} TopDigestDecides(a: seq<Blob>, b: seq<Blob>, digest: Vol -> Hash)
    requires Injective(digest) && WellFormed(a, digest) && WellFormed(b, digest)
    ensures a[|a| - 1].id == b[|b| - 1].id <==> a == b
    decreases |a|
  {
    if a[|a| - 1].id == b[|b| - 1].id {
      var x, y := a[|a| - 1], b[|b| - 1];
      assert RightDigest(a, digest, |a| - 1) && RightDigest(b, digest, |b| - 1);
      assert NoCollision(digest, Stored(a, |a| - 1), Stored(b, |b| - 1));
      if |a| > 1 && |b| > 1 {
        var a', b' := a[..|a| - 1], b[..|b| - 1];
        WellFormedPrefix(a, digest);
        WellFormedPrefix(b, digest);
        TopDigestDecides(a', b', digest);
        assert a == a' + [x] && b == b' + [y];
      } else {
        assert a == [x] && b == [y];
      }
    }
  }

  lemma {:induction false} WellFormedPrefix(blobs: seq<Blob>, digest: Vol -> Hash)
    requires WellFormed(blobs, digest) && |blobs| > 1
    ensures WellFormed(blobs[..|blobs| - 1], digest)
  {
    var front := blobs[..|blobs| - 1];
    forall i | 0 <= i < |front| ensures RightDigest(front, digest, i) {
      assert RightDigest(blobs, digest, i);
      assert front[i] == blobs[i] && Below(front, i) == Below(blobs, i);
    }
  }

  /**
   Two images, possibly in different pools: comparing the digests of their top layers, as
   MakeImage does, decides whether the images are the same layer for layer.
   */
  lemma {:induction false} SameTopSameImage(p: Pool, p': Pool, digest: Vol -> Hash, top: Name, top': Name,
                                            a: seq<Blob>, b: seq<Blob>)
    requires Injective(digest) && ContentAddressed(p, digest) && ContentAddressed(p', digest)
    requires LayersOf(p, top, a) && LayersOf(p', top', b)
    ensures top == top' <==> a == b
  {
    ChainsAreWellFormed(p, digest, top, a);
    ChainsAreWellFormed(p', digest, top', b);
    TopDigestDecides(a, b, digest);
  }

  /** The build cache test: the target's history ends as expected, on top of the current base. */
  function ProvisionStepsUnchanged(baseTop: Hash, history: seq<string>, diffIds: seq<Hash>, expected: string): bool {
    if |history| == 0 then false
    else if expected != history[|history| - 1] then false
    else if |diffIds| < 2 then false
    else diffIds[|diffIds| - 2] == baseTop
  }

  /** Looking at the second-to-last digest is the same as comparing all layers but the last. */
  lemma {:induction false} UnchangedComparesWholeBase(p: Pool, digest: Vol -> Hash, baseTop: Hash, base: seq<Blob>,
                                   target: seq<Blob>, history: seq<string>, expected: string)
    requires Injective(digest) && ContentAddressed(p, digest)
    requires LayersOf(p, Layer(baseTop), base) && WellFormed(target, digest)
    ensures ProvisionStepsUnchanged(baseTop, history, Ids(target), expected)
            <==> && history != [] && history[|history| - 1] == expected
                 && target[..|target| - 1] == base
  {
    ChainsAreWellFormed(p, digest, Layer(baseTop), base);
    if |target| > 1 {
      WellFormedPrefix(target, digest);
      TopDigestDecides(target[..|target| - 1], base, digest);
    }
  }

  // ---------------------------------------------------------------- converting and deduplicating

  /**
   Finding the layer and cloning it come to the same: afterwards it holds exactly the source's
   content and backing, the source is gone, nothing else changed.
   */
  lemma {:induction false} DeduplicationRefinesCloning(p: Pool, digest: Vol -> Hash, n: Name)
    requires Injective(digest) && ContentAddressed(p, digest)
    requires n in p && !n.Layer?
    ensures var id := digest(p[n]);
            var r := ToLayer(p, n, id);
            && r.layer == Success(Layer(id))
            && r.pool == p[Layer(id) := p[n]] - {n}
            && (Layer(id) in p ==> r.pool == p - {n})
            && ContentAddressed(r.pool, digest)
  {
    var id := digest(p[n]);
    if Layer(id) in p {
      assert digest(p[Layer(id)]) == id;
      assert NoCollision(digest, p[Layer(id)], p[n]);
      assert p[Layer(id) := p[n]] == p;
    }
  }

  /** No layer appears or changes. */
  ghost predicate NoNewLayers(p: Pool, p': Pool) {
    forall n :: n in p' && n.Layer? ==> n in p && p'[n] == p[n]
  }

  lemma {:induction false} SubmapContentAddressed(p: Pool, p': Pool, digest: Vol -> Hash)
    requires ContentAddressed(p, digest) && NoNewLayers(p, p')
    ensures ContentAddressed(p', digest)
  {
    forall n | n in p' && n.Layer? ensures digest(p'[n]) == n.hash {
      assert digest(p[n]) == n.hash;
    }
  }

  // ---------------------------------------------------------------- retagging

  /** MakeImage's guard gone wrong: the new top is only held by the old tag's own chain. */
  ghost predicate DropsNewTop(p: Pool, image: string, top: Name) {
    && Tag(image) in p
    && !DependsOn(p, Tag(image), top)
    && exists q :: SoleChain(p, top, Tag(image), q)
  }

  /** A tag of that name, if there is one, points at a layer. */
  predicate HasTop(p: Pool, image: string) {
    Tag(image) in p ==> p[Tag(image)].backing.Some?
  }

  /**
   Retagging to an existing layer succeeds, except exactly when the tag points at nothing, or when the
   layer is below the old top and nothing but the old tag's chain stands on it; then both the tag and
   the layer are lost.
   */
  lemma {:induction false} RetagSucceedsExactly(p: Pool, image: string, top: Name)
    requires Sound(p) && top.Layer? && top in p
    ensures var r := Retag(p, image, top);
            && (r.outcome.Pass? <==> HasTop(p, image) && !DropsNewTop(p, image, top))
            && (r.outcome.Pass? ==> Tag(image) in r.pool && DependsOn(r.pool, Tag(image), top))
            && (r.outcome.Fail? && !HasTop(p, image) ==> r.pool == p)
            && (r.outcome.Fail? && HasTop(p, image) ==> r.pool == Collect(p, Tag(image)).pool
                                                        && Tag(image) !in r.pool && top !in r.pool)
  {
    var tag := Tag(image);
    if tag in p && p[tag].backing.Some? {
      assert BackingPresent(p, tag);
      CollectSucceeds(p, tag);
      CollectRemovesExactly(p, top, tag);
      CollectCounts(p, tag);
      if DependsOn(p, tag, top) {
        assert Retag(p, image, top) == Changed(p, Pass);
      }
    }
  }

  /** The volumes of one chain, as they are in p, are all still in p'. */
  ghost predicate KeepsChain(p: Pool, p': Pool, q: seq<Name>) {
    Path(p', q) && forall i :: 0 <= i < |q| ==> q[i] in p && q[i] in p' && p'[q[i]] == p[q[i]]
  }

  /** A non-layer only ever stands at the top of a path. */
  lemma {:induction false} RootIsLast(p: Pool, n: Name, q: seq<Name>)
    requires !n.Layer? && Path(p, q) && q[|q| - 1] != n
    ensures n !in q
  {
    forall i | 0 <= i < |q| ensures q[i] != n {
      assert i < |q| - 1 ==> DependsOn(p, q[i + 1], q[i]);
    }
  }

  /** Collecting one root leaves the chain of every other root complete and as it was. */
  lemma {:induction false} CollectKeepsOthers(p: Pool, n: Name, q: seq<Name>)
    requires Sound(p) && !n.Layer?
    requires Path(p, q) && !q[|q| - 1].Layer? && q[|q| - 1] != n
    ensures KeepsChain(p, Collect(p, n).pool, q)
  {
    var p' := Collect(p, n).pool;
    CollectSound(p, n);
    PathMembers(p, q);
    if n !in p' {
      RootIsLast(p, n, q);
      assert Dropped(p', n) == p';
      SameSweepKeepsChain(p, p', n, q);
    }
  }

  lemma {:induction false} SameSweepKeepsChain(p: Pool, p': Pool, n: Name, q: seq<Name>)
    requires Sweep(p') == Sweep(p - {n})
    requires Path(p, q) && !q[|q| - 1].Layer? && n !in q
    ensures KeepsChain(p, p', q)
  {
    PathMembers(p, q);
    PathWithout(p, n, q);
    SweepKeepsChains(p - {n}, q);
    forall i | 0 <= i < |q| ensures q[i] in p' && p'[q[i]] == p[q[i]] {
      assert q[i] in Sweep(p') && Sweep(p')[q[i]] == (p - {n})[q[i]];
    }
    PathFrame(p, p', q);
  }

  /** Whatever becomes of the retagged image, every other image and working volume keeps its chain. */
  lemma {:induction false} RetagKeepsOthers(p: Pool, image: string, top: Name, q: seq<Name>)
    requires Sound(p)
    requires Path(p, q) && !q[|q| - 1].Layer? && q[|q| - 1] != Tag(image)
    ensures KeepsChain(p, Retag(p, image, top).pool, q)
  {
    var tag := Tag(image);
    var p' := Retag(p, image, top).pool;
    CollectKeepsOthers(p, tag, q);
    PathMembers(p, q);
    RootIsLast(p, tag, q);
    PathFrame(p, p', q);
  }

  /** On success the retagged image has exactly the layers its new top had before. */
  lemma {:induction false} RetagKeepsNewTop(p: Pool, image: string, top: Name, blobs: seq<Blob>)
    requires Sound(p) && LayersOf(p, top, blobs)
    requires Retag(p, image, top).outcome.Pass?
    ensures LayersOf(Retag(p, image, top).pool, top, blobs)
  {
    var tag := Tag(image);
    var p' := Retag(p, image, top).pool;
    var q: seq<Name> :| ChainBlobs(p, top, q, blobs);
    RetagSound(p, image, top);
    CollectCounts(p, tag);
    StackInSubpool(p, p', q);
    assert ChainBlobs(p', top, q, blobs);
  }

  /** A layer that is still there in a sound pool still has its whole chain. */
  lemma {:induction false} StackInSubpool(p: Pool, p': Pool, q: seq<Name>)
    requires Sound(p') && Stack(p, q) && q[|q| - 1] in p'
    requires forall n :: n in p' && n.Layer? ==> n in p && p'[n] == p[n]
    requires forall i :: 0 <= i < |q| ==> q[i].Layer?
    ensures Stack(p', q) && forall i :: 0 <= i < |q| ==> q[i] in p' && q[i] in p && p'[q[i]] == p[q[i]]
  {
    PathMembers(p, q);
    var i := |q| - 1;
    while i > 0
      invariant 0 <= i < |q| && forall j :: i <= j < |q| ==> q[j] in p'
    {
      assert DependsOn(p, q[i], q[i - 1]);
      assert BackingPresent(p', q[i]);
      i := i - 1;
    }
    PathFrame(p, p', q);
  }

  lemma {:induction false} RetagSound(p: Pool, image: string, top: Name)
    requires Sound(p) && (top.Layer? || top == Foreign(""))
    ensures Sound(Retag(p, image, top).pool)
  {
    CollectSound(p, Tag(image));
    var p' := if Tag(image) in p then Collect(p, Tag(image)).pool else p;
    if Dependency(p, Tag(image)).Success? {
      CollectDropsRoot(p, Tag(image));
    }
    if Tag(image) !in p' && top in p' {
      CreateSound(p', Tag(image), Vol(Some(top), []));
    }
  }

  /** A pool without garbage stays so when a tag is put on one of its layers. */
  lemma {:induction false} AttachSwept(p: Pool, tag: Name, top: Name)
    requires Sound(p) && Sweep(p) == p && tag.Tag? && tag !in p && top.Layer? && top in p
    ensures var p' := p[tag := Vol(Some(top), [])]; Sound(p') && Sweep(p') == p'
  {
    var p' := p[tag := Vol(Some(top), [])];
    CreateSound(p, tag, Vol(Some(top), []));
    SweptHasNoTops(p);
    forall n | n in p' && n.Layer? ensures Referenced(p', n) {
      var child :| child in p && DependsOn(p, child, n);
      assert DependsOn(p', child, n);
    }
    NothingToSweep(p');
  }

  /** Pointing a tag at a layer that a sweep left makes nothing live that was not. */
  lemma {:induction false} AttachThenSweep(p: Pool, q: Pool, tag: Name, top: Name)
    requires Sound(q) && Submap(q, p) && Sweep(p) == q && Sweep(q) == q
    requires tag.Tag? && tag !in p && top.Layer? && top in q
    ensures Sweep(p[tag := Vol(Some(top), [])]) == q[tag := Vol(Some(top), [])]
  {
    var p', q' := p[tag := Vol(Some(top), [])], q[tag := Vol(Some(top), [])];
    AttachSwept(q, tag, top);
    forall m | m in q' ensures Live(p', m) {
      assert m in Sweep(q');
      var r :| RootPath(q', m, r);
      PathMembers(q', r);
      PathFrame(q', p', r);
      assert RootPath(p', m, r);
    }
    forall m | m in Sweep(p') ensures m in q' {
      var r :| RootPath(p', m, r);
      LiveWasLive(p, q, tag, top, m, r);
    }
  }

  lemma {:induction false} LiveWasLive(p: Pool, q: Pool, tag: Name, top: Name, m: Name, r: seq<Name>)
    requires Sound(q) && Submap(q, p) && Sweep(p) == q
    requires tag.Tag? && tag !in p && top.Layer? && top in q
    requires RootPath(p[tag := Vol(Some(top), [])], m, r)
    ensures m == tag || m in q
  {
    var p' := p[tag := Vol(Some(top), [])];
    PathMembers(p', r);
    if r[|r| - 1] == tag {
      if |r| > 1 {
        assert DependsOn(p', r[|r| - 1], r[|r| - 2]);
        var below := r[..|r| - 1];
        PathLower(p', r, |r| - 2);
        OldChainsStay(q, p', below);
        assert below[0] == m;
      }
    } else {
      RootIsLast(p', tag, r);
      PathFrame(p', p, r);
      assert RootPath(p, m, r);
    }
  }

  /**
   In a pool without garbage, a retagging that succeeds leaves exactly what pointing the tag at the
   layer and sweeping would: what only the old tag kept is gone, and nothing else.
   */
  lemma {:induction false} RetagSweeps(p: Pool, image: string, top: Name)
    requires Sound(p) && Sweep(p) == p && top.Layer? && Retag(p, image, top).outcome.Pass?
    ensures var tag, r := Tag(image), Retag(p, image, top).pool;
            && Sweep(r) == r
            && r == if DependsOn(p, tag, top) then p else Sweep((p - {tag})[tag := Vol(Some(top), [])])
  {
    var tag := Tag(image);
    if tag !in p {
      AttachSwept(p, tag, top);
      assert p - {tag} == p;
    } else if !DependsOn(p, tag, top) {
      CollectThenAttach(p, tag, top);
    }
  }

  lemma {:induction false} CollectThenAttach(p: Pool, tag: Name, top: Name)
    requires Sound(p) && Sweep(p) == p && tag.Tag? && Dependency(p, tag).Success?
    requires top.Layer? && top in Collect(p, tag).pool
    ensures var r := Collect(p, tag).pool[tag := Vol(Some(top), [])];
            Sweep(r) == r && r == Sweep((p - {tag})[tag := Vol(Some(top), [])])
  {
    var q := Collect(p, tag).pool;
    ExactCollection(p, tag);
    CollectSound(p, tag);
    CollectDropsRoot(p, tag);
    AttachSwept(q, tag, top);
    AttachThenSweep(p - {tag}, q, tag, top);
  }

  /** Removing an image takes its tag away and leaves no garbage that was not there before. */
  lemma {:induction false} RemoveImageExactly(p: Pool, image: string)
    requires Sound(p)
    ensures var r := RemoveImage(p, image);
            && r.outcome.Pass? && Tag(image) !in r.pool
            && Submap(r.pool, p) && Sweep(r.pool) == Sweep(p - {Tag(image)})
            && (Sweep(p) == p ==> r.pool == Sweep(p - {Tag(image)}))
  {
    var tag := Tag(image);
    if tag in p {
      assert BackingPresent(p, tag);
      CollectSound(p, tag);
      CollectSucceeds(p, tag);
      CollectDropsRoot(p, tag);
      CollectDropsRootOnly(p, tag);
      if Sweep(p) == p {
        ExactCollection(p, tag);
      }
    } else {
      assert p - {tag} == p;
    }
  }

  /** The exception does happen: an image of two layers, retagged to its own base. */
  lemma {:induction false} RetagToBaseLosesImage()
    ensures exists p, image, top :: Sound(p) && top in p && Retag(p, image, top) == Changed(map[], Fail(NoStorageVol))
  {
    var base, over, tag := Layer("a"), Layer("b"), Tag("img");
    var p0: Pool := map[];
    var empty: map<Name, nat> := map[];
    assert Ranked(p0, empty);
    var p1 := p0[base := Vol(None, [])];
    CreateSound(p0, base, p1[base]);
    var p2 := p1[over := Vol(Some(base), [])];
    CreateSound(p1, over, p2[over]);
    var p := p2[tag := Vol(Some(over), [])];
    CreateSound(p2, tag, p[tag]);
    assert Dependency(p, tag) == Success(Some(over));
    assert p - {tag} == p2 && p2 - {over} == p1 && p1 - {base} == p0;
    assert !Referenced(p2, over) && !Referenced(p1, base) && !Referenced(p, tag);
    assert Collect(p1, base) == Collected(p0, 1, Pass);
    assert Collect(p2, over) == Collected(p0, 2, Pass);
    assert Collect(p, tag) == Collected(p0, 3, Pass);
    assert Retag(p, "img", base) == Changed(p0, Fail(NoStorageVol));
  }

  // ---------------------------------------------------------------- importing

  function RemoteBlobs(layers: seq<RemoteLayer>): seq<Blob> {
    seq(|layers|, i requires 0 <= i < |layers| => layers[i].blob)
  }

  /** A well-formed image, all of whose layers carry virter's media type. */
  ghost predicate VirterImage(image: RemoteImage, digest: Vol -> Hash) {
    && image.virterImage
    && (forall i :: 0 <= i < |image.layers| ==> image.layers[i].virterLayer)
    && WellFormed(RemoteBlobs(image.layers), digest)
  }

  /** An earlier import that was cut short left its working volume for a layer still missing. */
  predicate LeftOver(p: Pool, layers: seq<RemoteLayer>) {
    exists layer :: layer in layers && BlockedBy(p, layer)
  }

  predicate BlockedBy(p: Pool, layer: RemoteLayer) {
    Layer(layer.blob.id) !in p && Work(ImportName(layer.blob.id)) in p
  }

  ghost predicate Holds(p: Pool, blobs: seq<Blob>, j: nat)
    requires j < |blobs|
  {
    Layer(blobs[j].id) in p && p[Layer(blobs[j].id)] == Stored(blobs, j)
  }

  /** The first i layers are in the pool, content and backing included. */
  ghost predicate HoldsPrefix(p: Pool, blobs: seq<Blob>, i: nat)
    requires i <= |blobs|
  {
    forall j :: 0 <= j < i ==> Holds(p, blobs, j)
  }

  /** A layer that is present is the right one, by its digest. */
  lemma {:induction false} PresentIsRight(p: Pool, digest: Vol -> Hash, blobs: seq<Blob>, i: nat)
    requires Injective(digest) && ContentAddressed(p, digest) && WellFormed(blobs, digest) && i < |blobs|
    requires Layer(blobs[i].id) in p
    ensures Holds(p, blobs, i)
  {
    assert digest(p[Layer(blobs[i].id)]) == blobs[i].id;
    assert RightDigest(blobs, digest, i);
    assert NoCollision(digest, p[Layer(blobs[i].id)], Stored(blobs, i));
  }

  lemma {:induction false} LeftOverSplit(p: Pool, layers: seq<RemoteLayer>)
    requires layers != []
    ensures LeftOver(p, layers) <==> BlockedBy(p, layers[0]) || LeftOver(p, layers[1..])
  {
    assert forall layer :: layer in layers <==> layer == layers[0] || layer in layers[1..];
  }

  lemma {:induction false} LeftOverStored(p: Pool, id: Hash, v: Vol, layers: seq<RemoteLayer>)
    requires Work(ImportName(id)) !in p
    ensures LeftOver(p[Layer(id) := v], layers) <==> LeftOver(p, layers)
  {
    assert forall layer :: BlockedBy(p[Layer(id) := v], layer) <==> BlockedBy(p, layer);
  }

  lemma {:induction false} StoredHeld(p: Pool, blobs: seq<Blob>, i: nat)
    requires i < |blobs| && HoldsPrefix(p, blobs, i) && Layer(blobs[i].id) !in p
    ensures HoldsPrefix(p[Layer(blobs[i].id) := Stored(blobs, i)], blobs, i + 1)
  {
    var p1 := p[Layer(blobs[i].id) := Stored(blobs, i)];
    forall j | 0 <= j < i + 1 ensures Holds(p1, blobs, j) {
      assert j < i ==> Holds(p, blobs, j);
    }
  }

  /** Storing the next layer of a list keeps the pool sound and content-addressed. */
  lemma {:induction false} StoreNext(p: Pool, digest: Vol -> Hash, blobs: seq<Blob>, i: nat)
    requires ContentAddressed(p, digest) && Sound(p)
    requires WellFormed(blobs, digest) && i < |blobs| && HoldsPrefix(p, blobs, i)
    requires Layer(blobs[i].id) !in p
    ensures var p1 := p[Layer(blobs[i].id) := Stored(blobs, i)];
            && Sound(p1) && ContentAddressed(p1, digest) && HoldsPrefix(p1, blobs, i + 1)
            && (i > 0 ==> Below(blobs, i).value in p)
  {
    var layer := Layer(blobs[i].id);
    var v := Stored(blobs, i);
    assert i > 0 ==> Holds(p, blobs, i - 1);
    assert RightDigest(blobs, digest, i);
    CreateSound(p, layer, v);
    StoredHeld(p, blobs, i);
  }

  /** Importing into p ended in r: it completed what was missing and changed nothing else. */
  ghost predicate Completed(p: Pool, digest: Vol -> Hash, blobs: seq<Blob>, blocked: bool, r: Imported) {
    && Sound(r.pool) && ContentAddressed(r.pool, digest)
    && Submap(p, r.pool)
    && (forall n :: n in r.pool && n !in p ==> n.Layer?)
    && (if blocked then r.outcome == Fail(AlreadyExists)
        else r.outcome.Pass? && r.top == Below(blobs, |blobs|) && HoldsPrefix(r.pool, blobs, |blobs|))
  }

  /** The import loop from layer i on. */
  lemma {:induction false} ImportCompletes(p: Pool, digest: Vol -> Hash, layers: seq<RemoteLayer>, blobs: seq<Blob>,
                                           i: nat)
    requires Injective(digest) && ContentAddressed(p, digest) && Sound(p)
    requires i <= |layers| == |blobs| && forall j :: 0 <= j < |layers| ==> layers[j] == RemoteLayer(blobs[j], true)
    requires WellFormed(blobs, digest) && HoldsPrefix(p, blobs, i)
    ensures Completed(p, digest, blobs, LeftOver(p, layers[i..]), ImportLayers(p, layers[i..], Below(blobs, i)))
    decreases |layers| - i
  {
    var rest := layers[i..];
    if i < |layers| {
      var layer := Layer(blobs[i].id);
      assert rest[0] == RemoteLayer(blobs[i], true) && rest[1..] == layers[i + 1..];
      LeftOverSplit(p, rest);
      if layer in p {
        PresentIsRight(p, digest, blobs, i);
        ImportCompletes(p, digest, layers, blobs, i + 1);
      } else {
        StoreNext(p, digest, blobs, i);
        if Work(ImportName(blobs[i].id)) !in p {
          LeftOverStored(p, blobs[i].id, Stored(blobs, i), rest[1..]);
          ImportCompletes(p[layer := Stored(blobs, i)], digest, layers, blobs, i + 1);
        }
      }
    }
  }

  /** A pool that holds a whole list holds it as the chain of its last layer. */
  lemma {:induction false} HeldListIsChain(p: Pool, blobs: seq<Blob>)
    requires |blobs| > 0 && HoldsPrefix(p, blobs, |blobs|)
    ensures LayersOf(p, Layer(blobs[|blobs| - 1].id), blobs)
  {
    var q := seq(|blobs|, i requires 0 <= i < |blobs| => Layer(blobs[i].id));
    forall i, j | 0 <= i && j == i + 1 && j < |q| ensures DependsOn(p, q[j], q[i]) {
      assert Holds(p, blobs, i) && Holds(p, blobs, j);
    }
    assert Holds(p, blobs, 0);
    forall i | 0 <= i < |q| ensures q[i].Layer? && q[i] in p && p[q[i]].bytes == blobs[i].bytes {
      assert Holds(p, blobs, i);
    }
    assert blobs == Blobs(p, q);
    assert ChainBlobs(p, q[|q| - 1], q, blobs);
  }

  /** If the last layer is there, all of them are, and there is nothing to import. */
  lemma {:induction false} TopPresentAllPresent(p: Pool, digest: Vol -> Hash, blobs: seq<Blob>, i: nat)
    requires Injective(digest) && ContentAddressed(p, digest) && Closed(p) && WellFormed(blobs, digest)
    requires i < |blobs| && Layer(blobs[i].id) in p
    ensures HoldsPrefix(p, blobs, i + 1)
    decreases i
  {
    PresentIsRight(p, digest, blobs, i);
    assert BackingPresent(p, Layer(blobs[i].id));
    if i > 0 {
      TopPresentAllPresent(p, digest, blobs, i - 1);
    }
  }

  lemma {:induction false} NothingToImport(p: Pool, layers: seq<RemoteLayer>, top: Option<Name>)
    requires forall i :: 0 <= i < |layers| ==> layers[i].virterLayer && Layer(layers[i].blob.id) in p
    ensures ImportLayers(p, layers, top).pool == p
    decreases |layers|
  {
    if layers != [] {
      NothingToImport(p, layers[1..], Some(Layer(layers[0].blob.id)));
    }
  }

  /** Growing a closed pool adds nothing to the chains of the volumes it had. */
  lemma {:induction false} OldChainsStay(p: Pool, p': Pool, q: seq<Name>)
    requires Closed(p) && Submap(p, p') && Path(p', q) && q[|q| - 1] in p
    ensures forall i :: 0 <= i < |q| ==> q[i] in p
  {
    var i := |q| - 1;
    while i > 0
      invariant 0 <= i < |q| && forall j :: i <= j < |q| ==> q[j] in p
    {
      assert DependsOn(p', q[i], q[i - 1]);
      assert BackingPresent(p, q[i]);
      i := i - 1;
    }
  }

  /**
   Importing a well-formed image, whatever part of it is already there, ends with the tag on an
   image of exactly these layers, except when a left-over working volume is in the way, the tag
   points at nothing, or the image is an older version, held by nothing else, of what it pointed at.
   */
  lemma {:induction false} ImportRoundTrip(p: Pool, digest: Vol -> Hash, name: string, image: RemoteImage)
    requires Injective(digest) && ContentAddressed(p, digest) && Sound(p)
    requires VirterImage(image, digest)
    ensures var blobs := RemoteBlobs(image.layers);
            var top := Layer(blobs[|blobs| - 1].id);
            var r := Import(p, name, image);
            && Sound(r.pool) && ContentAddressed(r.pool, digest)
            && (r.outcome.Pass? <==> && HasTop(p, name) && !LeftOver(p, image.layers)
                                     && !(top in p && DropsNewTop(p, name, top)))
            && (r.outcome.Pass? ==> DependsOn(r.pool, Tag(name), top) && LayersOf(r.pool, top, blobs))
  {
    var layers := image.layers;
    var blobs := RemoteBlobs(layers);
    assert layers[0..] == layers && Below(blobs, 0) == None;
    ImportCompletes(p, digest, layers, blobs, 0);
    if !LeftOver(p, layers) {
      CompletedRetag(p, digest, name, layers, blobs);
    }
  }

  /** Once all layers are there, only retagging is left. */
  lemma {:induction false} CompletedRetag(p: Pool, digest: Vol -> Hash, name: string, layers: seq<RemoteLayer>,
                                          blobs: seq<Blob>)
    requires Injective(digest) && ContentAddressed(p, digest) && Sound(p)
    requires |layers| > 0 && forall i :: 0 <= i < |layers| ==> layers[i].virterLayer
    requires blobs == RemoteBlobs(layers) && WellFormed(blobs, digest)
    requires Completed(p, digest, blobs, false, ImportLayers(p, layers, None))
    ensures var top := Layer(blobs[|blobs| - 1].id);
            var p1 := ImportLayers(p, layers, None).pool;
            var r := Retag(p1, name, top);
            && Sound(r.pool) && ContentAddressed(r.pool, digest)
            && (r.outcome.Pass? <==> HasTop(p, name) && !(top in p && DropsNewTop(p, name, top)))
            && (r.outcome.Pass? ==> DependsOn(r.pool, Tag(name), top) && LayersOf(r.pool, top, blobs))
  {
    var p1 := ImportLayers(p, layers, None).pool;
    var top := Layer(blobs[|blobs| - 1].id);
    HeldListIsChain(p1, blobs);
    assert Holds(p1, blobs, |blobs| - 1);
    RetagImported(p1, digest, name, top, blobs);
    ImportedDropsNewTop(p, p1, digest, name, layers);
  }

  lemma {:induction false} RetagImported(p: Pool, digest: Vol -> Hash, name: string, top: Name, blobs: seq<Blob>)
    requires Sound(p) && ContentAddressed(p, digest) && top.Layer? && top in p && LayersOf(p, top, blobs)
    ensures var r := Retag(p, name, top);
            && Sound(r.pool) && ContentAddressed(r.pool, digest)
            && (r.outcome.Pass? <==> HasTop(p, name) && !DropsNewTop(p, name, top))
            && (r.outcome.Pass? ==> DependsOn(r.pool, Tag(name), top) && LayersOf(r.pool, top, blobs))
  {
    RetagSucceedsExactly(p, name, top);
    RetagSound(p, name, top);
    RetagContentAddressed(p, digest, name, top);
    if Retag(p, name, top).outcome.Pass? {
      RetagKeepsNewTop(p, name, top, blobs);
    }
  }

  /** The exception of MakeImage can only arise if there was nothing to import. */
  lemma {:induction false} ImportedDropsNewTop(p: Pool, p1: Pool, digest: Vol -> Hash, name: string,
                                               layers: seq<RemoteLayer>)
    requires Injective(digest) && ContentAddressed(p, digest) && Sound(p)
    requires |layers| > 0 && forall i :: 0 <= i < |layers| ==> layers[i].virterLayer
    requires WellFormed(RemoteBlobs(layers), digest)
    requires p1 == ImportLayers(p, layers, None).pool && Submap(p, p1)
    requires forall n :: n in p1 && n !in p ==> n.Layer?
    ensures var top := Layer(layers[|layers| - 1].blob.id);
            DropsNewTop(p1, name, top) <==> top in p && DropsNewTop(p, name, top)
  {
    var blobs := RemoteBlobs(layers);
    var top := Layer(blobs[|blobs| - 1].id);
    if top in p {
      TopPresentAllPresent(p, digest, blobs, |blobs| - 1);
      forall i | 0 <= i < |layers| ensures Layer(layers[i].blob.id) in p {
        assert Holds(p, blobs, i);
      }
      NothingToImport(p, layers, None);
    } else if DropsNewTop(p1, name, top) {
      var q :| SoleChain(p1, top, Tag(name), q);
      OldChainsStay(p, p1, q);
    }
  }

  /** The import loop passes exactly if all layers are virter's and none is blocked; it ends at the last one. */
  lemma {:induction false} ImportLoopPasses(p: Pool, layers: seq<RemoteLayer>, top: Option<Name>)
    requires Sound(p) && (top.Some? ==> top.value.Layer? && top.value in p)
    ensures var r := ImportLayers(p, layers, top);
            && (r.outcome.Pass? <==> AllVirter(layers) && !LeftOver(p, layers))
            && Sound(r.pool) && Submap(p, r.pool) && (forall n :: n in r.pool && n !in p ==> n.Layer?)
            && (r.outcome.Pass? ==> r.top == if layers == [] then top else Some(Layer(layers[|layers| - 1].blob.id)))
            && (r.outcome.Pass? && r.top.Some? ==> r.top.value in r.pool)
    decreases |layers|
  {
    if layers != [] && layers[0].virterLayer {
      var blob, rest := layers[0].blob, layers[1..];
      var layer := Layer(blob.id);
      LeftOverSplit(p, layers);
      AllVirterSplit(layers);
      if layer in p {
        ImportLoopPasses(p, rest, Some(layer));
      } else if Work(ImportName(blob.id)) !in p {
        CreateSound(p, layer, Vol(top, blob.bytes));
        LeftOverStored(p, blob.id, Vol(top, blob.bytes), rest);
        ImportLoopPasses(p[layer := Vol(top, blob.bytes)], rest, Some(layer));
      }
    }
  }

  predicate AllVirter(layers: seq<RemoteLayer>) {
    forall layer :: layer in layers ==> layer.virterLayer
  }

  lemma {:induction false} AllVirterSplit(layers: seq<RemoteLayer>)
    requires layers != []
    ensures AllVirter(layers) <==> layers[0].virterLayer && AllVirter(layers[1..])
  {
    assert forall layer :: layer in layers <==> layer == layers[0] || layer in layers[1..];
  }

  /** When any import succeeds, whatever its layers are listed under; the tag then is on the last of them. */
  lemma {:induction false} ImportSucceedsExactly(p: Pool, name: string, image: RemoteImage)
    requires Sound(p)
    ensures var layers, r := image.layers, Import(p, name, image);
            && (r.outcome.Pass? <==>
                  && image.virterImage && layers != [] && AllVirter(layers) && !LeftOver(p, layers) && HasTop(p, name)
                  && !DropsNewTop(ImportLayers(p, layers, None).pool, name, Layer(layers[|layers| - 1].blob.id)))
            && (r.outcome.Pass? ==> DependsOn(r.pool, Tag(name), Layer(layers[|layers| - 1].blob.id)))
  {
    var r := ImportLayers(p, image.layers, None);
    ImportLoopPasses(p, image.layers, None);
    if image.virterImage && r.outcome.Pass? && r.top.Some? {
      RetagSucceedsExactly(r.pool, name, r.top.value);
    }
  }

  /** The pool once a stand-alone disk is there as a layer. */
  lemma {:induction false} DiskStored(p: Pool, digest: Vol -> Hash, bytes: Bytes) returns (p1: Pool)
    requires Injective(digest) && ContentAddressed(p, digest) && Sound(p)
    ensures var id := digest(Vol(None, bytes));
            && p1 == (if Layer(id) in p then p else p[Layer(id) := Vol(None, bytes)])
            && Sound(p1) && ContentAddressed(p1, digest) && Layer(id) in p1
            && LayersOf(p1, Layer(id), [Blob(id, bytes)])
  {
    var v := Vol(None, bytes);
    var layer := Layer(digest(v));
    p1 := if layer in p then p else p[layer := v];
    if layer in p {
      assert NoCollision(digest, p[layer], v);
    } else {
      CreateSound(p, layer, v);
    }
    assert [Blob(digest(v), bytes)] == Blobs(p1, [layer]);
    assert ChainBlobs(p1, layer, [layer], [Blob(digest(v), bytes)]);
  }

  /**
   Importing a stand-alone disk ends with the tag on an image of that one layer, except exactly when a
   working volume of the image's name is in the way, the tag points at nothing, or the disk is the base,
   held by nothing else, of what it pointed at.
   */
  lemma {:induction false} StreamRoundTrip(p: Pool, digest: Vol -> Hash, image: string, bytes: Bytes)
    requires Injective(digest) && ContentAddressed(p, digest) && Sound(p)
    ensures var id := digest(Vol(None, bytes));
            var r := ImportRaw(p, image, bytes, id);
            && (r.outcome.Pass? <==> && Work(image) !in p && HasTop(p, image)
                                     && !(Layer(id) in p && DropsNewTop(p, image, Layer(id))))
            && (r.outcome.Pass? ==> && DependsOn(r.pool, Tag(image), Layer(id))
                                    && LayersOf(r.pool, Layer(id), [Blob(id, bytes)]))
            && Sound(r.pool) && ContentAddressed(r.pool, digest)
  {
    var id := digest(Vol(None, bytes));
    var p1 := DiskStored(p, digest, bytes);
    RetagImported(p1, digest, image, Layer(id), [Blob(id, bytes)]);
    if Layer(id) !in p && DropsNewTop(p1, image, Layer(id)) {
      var q :| SoleChain(p1, Layer(id), Tag(image), q);
      OldChainsStay(p, p1, q);
    }
  }

  /** Retagging makes no layers. */
  lemma {:induction false} RetagLayers(p: Pool, image: string, top: Name)
    ensures NoNewLayers(p, Retag(p, image, top).pool)
  {
    var r := Collect(p, Tag(image)).pool;
    CollectCounts(p, Tag(image));
    AttachLayers(p, p, Tag(image), top);
    AttachLayers(p, r, Tag(image), top);
  }

  lemma {:induction false} AttachLayers(p: Pool, q: Pool, tag: Name, top: Name)
    requires tag.Tag? && Submap(q, p)
    ensures NoNewLayers(p, Attach(q, tag, top).pool) && NoNewLayers(p, q)
  {
  }

  lemma {:induction false} RetagContentAddressed(p: Pool, digest: Vol -> Hash, image: string, top: Name)
    requires ContentAddressed(p, digest)
    ensures ContentAddressed(Retag(p, image, top).pool, digest)
  {
    var p' := Retag(p, image, top).pool;
    RetagLayers(p, image, top);
    SubmapContentAddressed(p, p', digest);
  }
}

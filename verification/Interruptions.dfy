/**
 Operations that break off: what any failing call can leave of the store, for the chains of
 everything else and for the names of layers.
 */
module Interruptions {
  import opened Wrappers
  import opened Volumes
  import opened Collector
  import opened Libvirt
  import opened Layers
  import opened Images
  import opened Digests
  import opened Removal
  import opened Commit

  // ---------------------------------------------------------------- collecting and retagging

  /** A collection, however far it gets, leaves the chain of every other root complete and as it was. */
  lemma {:induction false} CollectedPartKeepsOthers(p: Pool, n: Name, p': Pool, q: seq<Name>)
    requires Sound(p) && !n.Layer? && CollectedPart(p, n, p')
    requires Path(p, q) && !q[|q| - 1].Layer? && q[|q| - 1] != n
    ensures KeepsChain(p, p', q)
  {
    var k: nat :| p' == CollectUpTo(p, n, k);
    InterruptedCollect(p, n, k);
    PathMembers(p, q);
    if n !in p' {
      RootIsLast(p, n, q);
      assert Dropped(p', n) == p';
      SameSweepKeepsChain(p, p', n, q);
    }
  }

  lemma {:induction false} CollectedPartShrinks(p: Pool, n: Name, p': Pool)
    requires Sound(p) && CollectedPart(p, n, p')
    ensures Sound(p') && Submap(p', p)
  {
    var k: nat :| p' == CollectUpTo(p, n, k);
    InterruptedCollect(p, n, k);
  }

  predicate IsTop(top: Name) {
    top.Layer? || top == Foreign("")
  }

  lemma {:induction false} RetagOutcomeSound(p: Pool, image: string, top: Name, p': Pool)
    requires Sound(p) && IsTop(top) && RetagOutcome(p, image, top, p')
    ensures Sound(p')
  {
    if p' == Retag(p, image, top).pool {
      RetagSound(p, image, top);
    } else if p' != p {
      CollectedPartShrinks(p, Tag(image), p');
    }
  }

  lemma {:induction false} RetagOutcomeKeepsOthers(p: Pool, image: string, top: Name, p': Pool, q: seq<Name>)
    requires Sound(p) && RetagOutcome(p, image, top, p')
    requires Path(p, q) && !q[|q| - 1].Layer? && q[|q| - 1] != Tag(image)
    ensures KeepsChain(p, p', q)
  {
    PathMembers(p, q);
    if p' == Retag(p, image, top).pool {
      RetagKeepsOthers(p, image, top, q);
    } else if p' != p {
      CollectedPartKeepsOthers(p, Tag(image), p', q);
    }
  }

  lemma {:induction false} RetagOutcomeNoNewLayers(p: Pool, image: string, top: Name, p': Pool)
    requires Sound(p) && RetagOutcome(p, image, top, p')
    ensures NoNewLayers(p, p')
  {
    RetagLayers(p, image, top);
    if p' != p && p' != Retag(p, image, top).pool {
      CollectedPartShrinks(p, Tag(image), p');
    }
  }

  lemma {:induction false} RemoveOutcomeSound(p: Pool, image: string, p': Pool)
    requires Sound(p) && RemoveOutcome(p, image, p')
    ensures Sound(p') && Submap(p', p)
  {
    if p' == RemoveImage(p, image).pool {
      CollectSound(p, Tag(image));
    } else {
      CollectedPartShrinks(p, Tag(image), p');
    }
  }

  /** A removal of an image, however far it gets, leaves everything else with its chain. */
  lemma {:induction false} RemoveOutcomeKeepsOthers(p: Pool, image: string, p': Pool, q: seq<Name>)
    requires Sound(p) && RemoveOutcome(p, image, p')
    requires Path(p, q) && !q[|q| - 1].Layer? && q[|q| - 1] != Tag(image)
    ensures KeepsChain(p, p', q)
  {
    if p' == RemoveImage(p, image).pool {
      PathMembers(p, q);
      CollectKeepsOthers(p, Tag(image), q);
    } else {
      CollectedPartKeepsOthers(p, Tag(image), p', q);
    }
  }

  // ---------------------------------------------------------------- chains that stay

  lemma {:induction false} KeepsWhatGrows(p: Pool, p': Pool, q: seq<Name>)
    requires Path(p, q) && Submap(p, p')
    ensures KeepsChain(p, p', q)
  {
    PathMembers(p, q);
    PathFrame(p, p', q);
  }

  lemma {:induction false} KeepsInTwo(p: Pool, p1: Pool, p2: Pool, q: seq<Name>)
    requires KeepsChain(p, p1, q) && KeepsChain(p1, p2, q)
    ensures KeepsChain(p, p2, q)
  {
  }

  lemma {:induction false} ConversionKeepsOthers(p: Pool, n: Name, layer: Name, p': Pool, got: Option<Name>, del: bool,
                                                 q: seq<Name>)
    requires Sound(p) && n.Work? && layer.Layer? && Conversion(p, n, layer, p', got, del)
    requires del ==> !Referenced(p, layer)
    requires Path(p, q) && !q[|q| - 1].Layer? && q[|q| - 1] != n
    ensures KeepsChain(p, p', q)
  {
    PathMembers(p, q);
    RootIsLast(p, n, q);
    if got.None? && del && p' == p - {layer} {
      forall i | 0 <= i < |q| ensures q[i] != layer {
        assert i < |q| - 1 ==> DependsOn(p, q[i + 1], q[i]);
      }
    }
    PathFrame(p, p', q);
  }

  lemma {:induction false} EndsTaggedSound(p: Pool, n: Name, id: Hash, image: string, p': Pool, del: bool)
    requires Sound(p) && n.Work? && EndsTagged(p, n, id, image, p', del)
    requires del ==> !Referenced(p, Layer(id))
    ensures Sound(p')
  {
    var q, got :| ConvertedAndTagged(p, n, id, image, q, got, p', del);
    ConversionSound(p, n, Layer(id), q, got, del);
    if got.Some? {
      RetagOutcomeSound(q, image, got.value, p');
    }
  }

  lemma {:induction false} EndsTaggedKeepsOthers(p: Pool, n: Name, id: Hash, image: string, p': Pool, del: bool,
                                                 ch: seq<Name>)
    requires Sound(p) && n.Work? && EndsTagged(p, n, id, image, p', del)
    requires del ==> !Referenced(p, Layer(id))
    requires Path(p, ch) && !ch[|ch| - 1].Layer? && ch[|ch| - 1] != n && ch[|ch| - 1] != Tag(image)
    ensures KeepsChain(p, p', ch)
  {
    var q, got :| ConvertedAndTagged(p, n, id, image, q, got, p', del);
    ConversionSound(p, n, Layer(id), q, got, del);
    ConversionKeepsOthers(p, n, Layer(id), q, got, del, ch);
    if got.Some? {
      RetagOutcomeKeepsOthers(q, image, got.value, p', ch);
      KeepsInTwo(p, q, p', ch);
    }
  }

  // ---------------------------------------------------------------- imports

  /** The loop, however far it got, has only added layers, and is about to go on from one or from none. */
  lemma {:induction false} ReachedGrows(p: Pool, layers: seq<RemoteLayer>, i: nat, p': Pool, top: Option<Name>)
    requires Sound(p) && i <= |layers| && Reached(p, layers, i, p', top)
    ensures Sound(p') && Submap(p, p') && (top.Some? ==> IsTop(top.value))
    decreases i
  {
    if i > 0 {
      var q, t :| Reached(p, layers, i - 1, q, t) && Passes(q, layers[i - 1], t, p', top);
      ReachedGrows(p, layers, i - 1, q, t);
      var blob := layers[i - 1].blob;
      if Layer(blob.id) !in q {
        FetchSoundIf(q, blob, t, p', top);
      }
    }
  }

  /** Where the loop broke off, the pool is sound and has lost nothing. */
  lemma {:induction false} BrokenLoopGrows(p: Pool, layers: seq<RemoteLayer>, p': Pool, del: bool)
    requires Sound(p) && LoopBreaksOff(p, layers, p', del)
    ensures Sound(p') && Submap(p, p')
  {
    var i, q, top :| 0 <= i < |layers| && BreaksOffAt(p, layers, i, q, top, p', del);
    ReachedGrows(p, layers, i, q, top);
    if p' != q {
      FetchSoundIf(q, layers[i].blob, top, p', None);
    }
  }

  lemma {:induction false} ImportOutcomeSound(p: Pool, name: string, image: RemoteImage, p': Pool, del: bool)
    requires Sound(p) && ImportOutcome(p, name, image, p', del)
    ensures Sound(p')
  {
    if p' != p {
      if LoopBreaksOff(p, image.layers, p', del) {
        BrokenLoopGrows(p, image.layers, p', del);
      } else {
        var q, top :| Reached(p, image.layers, |image.layers|, q, top)
                      && if top.Some? then RetagOutcome(q, name, top.value, p') else p' == q;
        ReachedGrows(p, image.layers, |image.layers|, q, top);
        if top.Some? {
          RetagOutcomeSound(q, name, top.value, p');
        }
      }
    }
  }

  /** An import, however it ends, leaves every other image and working volume with its chain. */
  lemma {:induction false} ImportOutcomeKeepsOthers(p: Pool, name: string, image: RemoteImage, p': Pool, del: bool,
                                                    ch: seq<Name>)
    requires Sound(p) && ImportOutcome(p, name, image, p', del)
    requires Path(p, ch) && !ch[|ch| - 1].Layer? && ch[|ch| - 1] != Tag(name)
    ensures KeepsChain(p, p', ch)
  {
    if p' == p {
      KeepsWhatGrows(p, p, ch);
    } else if LoopBreaksOff(p, image.layers, p', del) {
      BrokenLoopGrows(p, image.layers, p', del);
      KeepsWhatGrows(p, p', ch);
    } else {
      var q, top :| Reached(p, image.layers, |image.layers|, q, top)
                    && if top.Some? then RetagOutcome(q, name, top.value, p') else p' == q;
      ReachedGrows(p, image.layers, |image.layers|, q, top);
      KeepsWhatGrows(p, q, ch);
      if top.Some? {
        RetagOutcomeKeepsOthers(q, name, top.value, p', ch);
        KeepsInTwo(p, q, p', ch);
      }
    }
  }

  /** The layer a stream becomes is there and in use, and the stream's own volume can be created. */
  ghost predicate StreamOverwrites(p: Pool, image: string, id: Hash) {
    Work(image) !in p && Referenced(p, Layer(id))
  }

  lemma {:induction false} UploadedStream(p: Pool, image: string, bytes: Bytes, id: Hash)
    requires Sound(p) && Work(image) !in p
    ensures var q := p[Work(image) := Vol(None, bytes)];
            Sound(q) && Submap(p, q) && (Referenced(q, Layer(id)) <==> Referenced(p, Layer(id)))
  {
    var q := p[Work(image) := Vol(None, bytes)];
    CreateSound(p, Work(image), Vol(None, bytes));
    forall child | child in q && DependsOn(q, child, Layer(id)) ensures child in p && DependsOn(p, child, Layer(id)) {
    }
    forall child | child in p && DependsOn(p, child, Layer(id)) ensures child in q && DependsOn(q, child, Layer(id)) {
    }
  }

  lemma {:induction false} StreamOutcomeSound(p: Pool, image: string, bytes: Bytes, id: Hash, p': Pool, del: bool)
    requires Sound(p) && StreamOutcome(p, image, bytes, id, p', del)
    requires del ==> !StreamOverwrites(p, image, id)
    ensures Sound(p')
  {
    var dyn := Work(image);
    if p' != p {
      UploadedStream(p, image, bytes, id);
      if EndsTagged(p[dyn := Vol(None, bytes)], dyn, id, image, p', del) {
        EndsTaggedSound(p[dyn := Vol(None, bytes)], dyn, id, image, p', del);
      } else {
        AddSound(p, p', dyn, None);
      }
    }
  }

  lemma {:induction false} StreamOutcomeKeepsOthers(p: Pool, image: string, bytes: Bytes, id: Hash, p': Pool, del: bool,
                                                    ch: seq<Name>)
    requires Sound(p) && StreamOutcome(p, image, bytes, id, p', del)
    requires del ==> !StreamOverwrites(p, image, id)
    requires Path(p, ch) && !ch[|ch| - 1].Layer? && ch[|ch| - 1] != Tag(image)
    ensures KeepsChain(p, p', ch)
  {
    var dyn := Work(image);
    PathMembers(p, ch);
    if dyn !in p && EndsTagged(p[dyn := Vol(None, bytes)], dyn, id, image, p', del) {
      var q := p[dyn := Vol(None, bytes)];
      UploadedStream(p, image, bytes, id);
      KeepsWhatGrows(p, q, ch);
      EndsTaggedKeepsOthers(q, dyn, id, image, p', del, ch);
      KeepsInTwo(p, q, p', ch);
    } else {
      KeepsWhatGrows(p, p', ch);
    }
  }

  // ---------------------------------------------------------------- removals and commits

  lemma {:induction false} RemoveDisksSound(p: Pool, disks: seq<Name>, keep: Option<Name>)
    requires Sound(p)
    ensures Sound(RemoveDisks(p, disks, keep).0)
    decreases |disks|
  {
    if disks != [] {
      if keep == Some(disks[0]) || disks[0] !in p {
        RemoveDisksSound(p, disks[1..], keep);
      } else {
        CollectSound(p, disks[0]);
        RemoveDisksSound(Collect(p, disks[0]).pool, disks[1..], keep);
      }
    }
  }

  /** Sweeping equal after dropping some roots keeps the chains of all other roots. */
  lemma {:induction false} SameSweepKeepsRoot(p: Pool, p': Pool, roots: set<Name>, q: seq<Name>)
    requires Submap(p', p) && Sweep(p' - roots) == Sweep(p - roots)
    requires Path(p, q) && !q[|q| - 1].Layer? && q[|q| - 1] !in roots
    requires forall n :: n in roots ==> !n.Layer?
    ensures KeepsChain(p, p', q)
  {
    PathMembers(p, q);
    forall i | 0 <= i < |q| ensures q[i] !in roots {
      assert i < |q| - 1 ==> DependsOn(p, q[i + 1], q[i]);
    }
    PathFrame(p, p - roots, q);
    SweepKeepsChains(p - roots, q);
    forall i | 0 <= i < |q| ensures q[i] in p' {
      assert q[i] in Sweep(p' - roots);
    }
    PathFrame(p, p', q);
  }

  lemma {:induction false} AttemptKeepsOthers(s: State, s': State, name: string, removeDHCP: bool, removeBoot: bool,
                                              done: bool, q: seq<Name>)
    requires Attempt(s, s', name, removeDHCP, removeBoot, done)
    requires Path(s.vols, q) && !q[|q| - 1].Layer?
    requires name in s.domains ==> q[|q| - 1] !in Doomed(s.domains[name], name, removeBoot)
    ensures KeepsChain(s.vols, s'.vols, q)
  {
    PathMembers(s.vols, q);
    if name in s.domains {
      var roots := Doomed(s.domains[name], name, removeBoot);
      if name in s'.domains {
        assert Doomed(s'.domains[name], name, removeBoot) == roots;
        SameSweepKeepsRoot(s.vols, s'.vols, roots, q);
      } else {
        assert Sweep(s'.vols) == Sweep(s.vols - roots);
        SweepIdempotent(s'.vols);
        SweepDrop(s'.vols, Sweep(s.vols - roots), roots);
        SweepDrop(s.vols - roots, Sweep(s.vols - roots), roots);
        assert s.vols - roots - roots == s.vols - roots;
        SameSweepKeepsRoot(s.vols, s'.vols, roots, q);
      }
    }
  }

  /** What is left of a pool once a machine is removed. */
  lemma {:induction false} RemovedKeepsOthers(b: State, name: string, removeDHCP: bool, removeBoot: bool, q: seq<Name>)
    requires Sound(b.vols)
    requires name in b.domains ==> forall n :: n in b.domains[name].disks ==> n.Work?
    requires Path(b.vols, q) && !q[|q| - 1].Layer?
    requires name in b.domains && q[|q| - 1] in b.domains[name].disks ==> Kept(name, removeBoot) == Some(q[|q| - 1])
    ensures var p' := Remove(b, name, removeDHCP, removeBoot).0.vols; Sound(p') && KeepsChain(b.vols, p', q)
  {
    if name in b.domains {
      RemoveDisksKeepsOthers(b.vols, b.domains[name].disks, Kept(name, removeBoot), q);
    } else {
      KeepsWhatGrows(b.vols, b.vols, q);
    }
  }

  lemma {:induction false} RemovedSound(b: State, name: string, removeDHCP: bool, removeBoot: bool)
    requires Sound(b.vols)
    ensures var p' := Remove(b, name, removeDHCP, removeBoot).0.vols; Sound(p') && Submap(p', b.vols)
  {
    if name in b.domains {
      RemoveDisksSound(b.vols, b.domains[name].disks, Kept(name, removeBoot));
      RemoveDisksShrinks(b.vols, b.domains[name].disks, Kept(name, removeBoot));
    }
  }

  lemma {:induction false} BootOutcomeSound(p: Pool, digest: Vol -> Hash, name: string, image: string, p': Pool,
                                            del: bool)
    requires Sound(p) && BootOutcome(p, digest, name, image, p', del)
    requires del && Work(name) in p ==> !Referenced(p, Layer(digest(p[Work(name)])))
    ensures Sound(p')
  {
    if p' != p {
      EndsTaggedSound(p, Work(name), digest(p[Work(name)]), image, p', del);
    }
  }

  /** The layer the boot volume becomes is in use once the machine is gone. */
  ghost predicate OverwritesFrom(b: State, digest: Vol -> Hash, name: string, cfg: CommitConfig) {
    var (s1, removed) := Remove(b, name, !cfg.staticDhcp, false);
    removed.Pass? && Work(name) in s1.vols && Referenced(s1.vols, Layer(digest(s1.vols[Work(name)])))
  }

  ghost predicate CommitOverwrites(s: State, digest: Vol -> Hash, name: string, cfg: CommitConfig) {
    && name in s.domains && Allowed(s.domains[name], cfg).Pass?
    && (OverwritesFrom(s, digest, name, cfg) || OverwritesFrom(Stopped(s, name), digest, name, cfg))
  }

  lemma {:induction false} EndsFromSound(b: State, digest: Vol -> Hash, name: string, cfg: CommitConfig, s': State,
                                         del: bool)
    requires Sound(b.vols) && LiveDomains(b.domains) && EndsFrom(b, digest, name, cfg, s', del)
    requires del ==> !OverwritesFrom(b, digest, name, cfg)
    ensures Sound(s'.vols) && LiveDomains(s'.domains) && SameDisks(b.domains, s'.domains)
  {
    if Attempt(b, s', name, !cfg.staticDhcp, false, false) {
      AttemptSameDisks(b, s', name, !cfg.staticDhcp, false, false);
    } else {
      var s1 := Remove(b, name, !cfg.staticDhcp, false).0;
      RemovedSound(b, name, !cfg.staticDhcp, false);
      BootOutcomeSound(s1.vols, digest, name, cfg.image, s'.vols, del);
    }
  }

  lemma {:induction false} BootOutcomeKeepsOthers(p: Pool, digest: Vol -> Hash, name: string, image: string, p': Pool,
                                                  del: bool, q: seq<Name>)
    requires Sound(p) && BootOutcome(p, digest, name, image, p', del)
    requires del && Work(name) in p ==> !Referenced(p, Layer(digest(p[Work(name)])))
    requires Path(p, q) && !q[|q| - 1].Layer? && q[|q| - 1] != Tag(image) && q[|q| - 1] != Work(name)
    ensures KeepsChain(p, p', q)
  {
    if p' == p {
      KeepsWhatGrows(p, p, q);
    } else {
      EndsTaggedKeepsOthers(p, Work(name), digest(p[Work(name)]), image, p', del, q);
    }
  }

  lemma {:induction false} EndsFromKeepsOthers(b: State, digest: Vol -> Hash, name: string, cfg: CommitConfig,
                                               s': State,
                                               del: bool, q: seq<Name>)
    requires Sound(b.vols) && EndsFrom(b, digest, name, cfg, s', del)
    requires del ==> !OverwritesFrom(b, digest, name, cfg)
    requires name in b.domains ==> forall n :: n in b.domains[name].disks ==> n.Work?
    requires Path(b.vols, q) && !q[|q| - 1].Layer? && q[|q| - 1] != Tag(cfg.image) && q[|q| - 1] != Work(name)
    requires name in b.domains ==> q[|q| - 1] !in b.domains[name].disks
    ensures KeepsChain(b.vols, s'.vols, q)
  {
    if Attempt(b, s', name, !cfg.staticDhcp, false, false) {
      AttemptKeepsOthers(b, s', name, !cfg.staticDhcp, false, false, q);
    } else {
      var s1 := Remove(b, name, !cfg.staticDhcp, false).0;
      RemovedKeepsOthers(b, name, !cfg.staticDhcp, false, q);
      BootOutcomeKeepsOthers(s1.vols, digest, name, cfg.image, s'.vols, del, q);
      KeepsInTwo(b.vols, s1.vols, s'.vols, q);
    }
  }

  // ---------------------------------------------------------------- soundness, exactly

  /** Converting and tagging stays sound however it ends, exactly if nothing stands on the layer it is to become. */
  lemma {:induction false} EndsTaggedSoundExactly(p: Pool, n: Name, id: Hash, image: string)
    requires Sound(p) && n.Work?
    ensures (forall p' :: EndsTagged(p, n, id, image, p', true) ==> Sound(p')) <==> !Referenced(p, Layer(id))
  {
    if Referenced(p, Layer(id)) {
      var p' := p - {Layer(id)};
      assert ConvertedAndTagged(p, n, id, image, p', None, p', true);
      assert EndsTagged(p, n, id, image, p', true);
      DeletionSoundExactly(p, Layer(id));
    } else {
      forall p' | EndsTagged(p, n, id, image, p', true) ensures Sound(p') {
        EndsTaggedSound(p, n, id, image, p', true);
      }
    }
  }

  lemma {:induction false} StreamSoundExactly(p: Pool, image: string, bytes: Bytes, id: Hash)
    requires Sound(p)
    ensures (forall p' :: StreamOutcome(p, image, bytes, id, p', true) ==> Sound(p'))
            <==> !StreamOverwrites(p, image, id)
  {
    if StreamOverwrites(p, image, id) {
      var dyn := Work(image);
      var q := p[dyn := Vol(None, bytes)];
      UploadedStream(p, image, bytes, id);
      EndsTaggedSoundExactly(q, dyn, id, image);
      var p' :| EndsTagged(q, dyn, id, image, p', true) && !Sound(p');
      assert StreamOutcome(p, image, bytes, id, p', true);
    } else {
      forall p' | StreamOutcome(p, image, bytes, id, p', true) ensures Sound(p') {
        StreamOutcomeSound(p, image, bytes, id, p', true);
      }
    }
  }

  lemma {:induction false} BreaksFrom(b: State, digest: Vol -> Hash, name: string, cfg: CommitConfig)
    returns (s': State)
    requires Sound(b.vols) && OverwritesFrom(b, digest, name, cfg)
    ensures EndsFrom(b, digest, name, cfg, s', true) && !Sound(s'.vols)
  {
    var s1 := Remove(b, name, !cfg.staticDhcp, false).0;
    var id := digest(s1.vols[Work(name)]);
    RemovedSound(b, name, !cfg.staticDhcp, false);
    EndsTaggedSoundExactly(s1.vols, Work(name), id, cfg.image);
    var p' :| EndsTagged(s1.vols, Work(name), id, cfg.image, p', true) && !Sound(p');
    s' := s1.(vols := p');
  }

  lemma {:induction false} StoppedLive(s: State, name: string)
    requires LiveDomains(s.domains) && name in s.domains
    ensures LiveDomains(Stopped(s, name).domains) && SameDisks(s.domains, Stopped(s, name).domains)
  {
  }

  lemma {:induction false} CommitOutcomeSound(s: State, digest: Vol -> Hash, name: string, cfg: CommitConfig,
                                              s': State, del: bool)
    requires Sound(s.vols) && LiveDomains(s.domains) && CommitOutcome(s, digest, name, cfg, s', del)
    requires del ==> !CommitOverwrites(s, digest, name, cfg)
    ensures Sound(s'.vols) && LiveDomains(s'.domains) && SameDisks(s.domains, s'.domains)
  {
    if s' != s {
      StoppedLive(s, name);
      if EndsFrom(s, digest, name, cfg, s', del) {
        EndsFromSound(s, digest, name, cfg, s', del);
      } else {
        EndsFromSound(Stopped(s, name), digest, name, cfg, s', del);
      }
    }
  }

  /** A commit, however it ends, adds no host entries. */
  lemma {:induction false} CommitOutcomeFewer(s: State, digest: Vol -> Hash, name: string, cfg: CommitConfig,
                                              s': State, del: bool)
    requires CommitOutcome(s, digest, name, cfg, s', del)
    ensures FewerEntries(s.networks, s'.networks)
  {
    RemovedIsFewer(s, name, !cfg.staticDhcp, false);
    if name in s.domains {
      RemovedIsFewer(Stopped(s, name), name, !cfg.staticDhcp, false);
    }
  }

  /** A commit leaves a sound store however it ends, exactly if no volume stands on the layer it is to make. */
  lemma {:induction false} CommitSoundExactly(s: State, digest: Vol -> Hash, name: string, cfg: CommitConfig)
    requires Sound(s.vols) && LiveDomains(s.domains)
    ensures (forall s' :: CommitOutcome(s, digest, name, cfg, s', true) ==> Sound(s'.vols))
            <==> !CommitOverwrites(s, digest, name, cfg)
  {
    if CommitOverwrites(s, digest, name, cfg) {
      var b := if OverwritesFrom(s, digest, name, cfg) then s else Stopped(s, name);
      var s' := BreaksFrom(b, digest, name, cfg);
      assert CommitOutcome(s, digest, name, cfg, s', true);
    } else {
      forall s' | CommitOutcome(s, digest, name, cfg, s', true) ensures Sound(s'.vols) {
        CommitOutcomeSound(s, digest, name, cfg, s', true);
      }
    }
  }

  /** A commit, however it ends, leaves every other image and machine with its chain. */
  lemma {:induction false} CommitOutcomeKeepsOthers(s: State, digest: Vol -> Hash, name: string, cfg: CommitConfig,
                                                    s': State,
                                                    del: bool, q: seq<Name>)
    requires Sound(s.vols) && CommitOutcome(s, digest, name, cfg, s', del)
    requires del ==> !CommitOverwrites(s, digest, name, cfg)
    requires name in s.domains ==> forall n :: n in s.domains[name].disks ==> n.Work?
    requires Path(s.vols, q) && !q[|q| - 1].Layer?
    requires name in s.domains ==>
               q[|q| - 1] != Tag(cfg.image) && q[|q| - 1] != Work(name) && q[|q| - 1] !in s.domains[name].disks
    ensures KeepsChain(s.vols, s'.vols, q)
  {
    if s' == s {
      KeepsWhatGrows(s.vols, s.vols, q);
    } else if EndsFrom(s, digest, name, cfg, s', del) {
      EndsFromKeepsOthers(s, digest, name, cfg, s', del, q);
    } else {
      EndsFromKeepsOthers(Stopped(s, name), digest, name, cfg, s', del, q);
    }
  }

  // ---------------------------------------------------------------- names, exactly

  /** A content that does not have the digest. */
  lemma {:induction false} OtherContent(digest: Vol -> Hash, backing: Option<Name>, id: Hash) returns (bytes: Bytes)
    requires Injective(digest)
    ensures digest(Vol(backing, bytes)) != id
  {
    var a, b := Vol(backing, [0]), Vol(backing, [1]);
    assert NoCollision(digest, a, b) && a.bytes[0] != b.bytes[0];
    bytes := if digest(a) != id then a.bytes else b.bytes;
  }

  /**
   However copying a volume to its layer ends, the pool stays content-addressed, exactly if there was
   nothing to copy.
   */
  lemma {:induction false} CloneNamesExactly(p: Pool, digest: Vol -> Hash, n: Name)
    requires Injective(digest) && ContentAddressed(p, digest) && n in p && !n.Layer?
    ensures var d := digest(p[n]);
            (forall p' :: CopyOf(p, n, Layer(d), p') ==> ContentAddressed(p', digest)) <==> Layer(d) in p
  {
    var layer := Layer(digest(p[n]));
    if layer !in p {
      var p' := Misnamed(p, digest, n, layer);
    }
  }

  lemma {:induction false} Misnamed(p: Pool, digest: Vol -> Hash, n: Name, layer: Name) returns (p': Pool)
    requires Injective(digest) && n in p && layer.Layer? && layer !in p
    ensures CopyOf(p, n, layer, p') && !ContentAddressed(p', digest)
  {
    var junk := OtherContent(digest, p[n].backing, layer.hash);
    p' := p[layer := Vol(p[n].backing, junk)];
    assert layer in p' && digest(p'[layer]) != layer.hash;
  }

  /** Converting and tagging keeps every layer named by its digest however it ends, exactly if the layer was there. */
  lemma {:induction false} EndsTaggedNamesExactly(p: Pool, digest: Vol -> Hash, n: Name, image: string)
    requires Injective(digest) && ContentAddressed(p, digest) && Sound(p) && n in p && n.Work?
    ensures var id := digest(p[n]);
            (forall p', del :: EndsTagged(p, n, id, image, p', del) ==> ContentAddressed(p', digest))
            <==> Layer(id) in p
  {
    var id := digest(p[n]);
    if Layer(id) in p {
      forall p', del | EndsTagged(p, n, id, image, p', del) ensures ContentAddressed(p', digest) {
        FoundKeepsNames(p, digest, n, id, image, p', del);
      }
    } else {
      var p' := Misnamed(p, digest, n, Layer(id));
      assert ConvertedAndTagged(p, n, id, image, p', None, p', false);
      assert EndsTagged(p, n, id, image, p', false);
    }
  }

  lemma {:induction false} FoundKeepsNames(p: Pool, digest: Vol -> Hash, n: Name, id: Hash, image: string, p': Pool,
                                           del: bool)
    requires ContentAddressed(p, digest) && Sound(p) && n.Work? && Layer(id) in p
    requires EndsTagged(p, n, id, image, p', del)
    ensures ContentAddressed(p', digest)
  {
    var q, got :| ConvertedAndTagged(p, n, id, image, q, got, p', del);
    assert NoNewLayers(p, q);
    if got.Some? {
      ConversionSound(p, n, Layer(id), q, got, false);
      RetagOutcomeNoNewLayers(q, image, got.value, p');
    }
    SubmapContentAddressed(p, p', digest);
  }

  /** A stream that can be uploaded and whose layer is not there yet. */
  predicate StreamFetches(p: Pool, image: string, id: Hash) {
    Work(image) !in p && Layer(id) !in p
  }

  /** Importing a stream keeps every layer named by its digest however it ends, exactly if there is nothing to store. */
  lemma {:induction false} StreamNamesExactly(p: Pool, digest: Vol -> Hash, image: string, bytes: Bytes)
    requires Injective(digest) && ContentAddressed(p, digest) && Sound(p)
    ensures var id := digest(Vol(None, bytes));
            (forall p', del :: StreamOutcome(p, image, bytes, id, p', del) ==> ContentAddressed(p', digest))
            <==> !StreamFetches(p, image, id)
  {
    var dyn, id := Work(image), digest(Vol(None, bytes));
    if dyn !in p {
      var q := p[dyn := Vol(None, bytes)];
      UploadedStream(p, image, bytes, id);
      SubmapContentAddressed(p, q, digest);
      EndsTaggedNamesExactly(q, digest, dyn, image);
      if Layer(id) !in p {
        var p', del :| EndsTagged(q, dyn, id, image, p', del) && !ContentAddressed(p', digest);
        assert StreamOutcome(p, image, bytes, id, p', del);
      } else {
        forall p', del | StreamOutcome(p, image, bytes, id, p', del) ensures ContentAddressed(p', digest) {
          if !EndsTagged(q, dyn, id, image, p', del) {
            SubmapContentAddressed(p, p', digest);
          }
        }
      }
    }
  }

  /** The first layer of the list that is not there. */
  predicate MissingFirst(p: Pool, layers: seq<RemoteLayer>, i: nat) {
    && i < |layers| && Layer(layers[i].blob.id) !in p
    && (forall j :: 0 <= j <= i ==> layers[j].virterLayer)
    && (forall j :: 0 <= j < i ==> Layer(layers[j].blob.id) in p)
  }

  /** There is such a layer, and no left-over is in its way. */
  predicate Fetches(p: Pool, layers: seq<RemoteLayer>) {
    exists i :: 0 <= i < |layers| && StoresAt(p, layers, i)
  }

  predicate StoresAt(p: Pool, layers: seq<RemoteLayer>, i: nat) {
    MissingFirst(p, layers, i) && Work(ImportName(layers[i].blob.id)) !in p
  }

  /** All layers before the i-th are there. */
  predicate PresentBelow(p: Pool, layers: seq<RemoteLayer>, i: nat)
    requires i <= |layers|
  {
    forall j :: 0 <= j < i ==> layers[j].virterLayer && Layer(layers[j].blob.id) in p
  }

  lemma {:induction false} TurnUnfetched(p: Pool, layers: seq<RemoteLayer>, i: nat, top: Option<Name>, p': Pool,
                                         top': Option<Name>)
    requires i < |layers| && PresentBelow(p, layers, i) && !StoresAt(p, layers, i)
    requires Passes(p, layers[i], top, p', top')
    ensures p' == p && PresentBelow(p, layers, i + 1)
  {
  }

  lemma {:induction false} BreakUnfetched(p: Pool, layers: seq<RemoteLayer>, i: nat, top: Option<Name>, p': Pool,
                                          del: bool)
    requires i < |layers| && PresentBelow(p, layers, i) && !StoresAt(p, layers, i)
    requires BreaksOffAt(p, layers, i, p, top, p', del)
    ensures p' == p
  {
  }

  lemma {:induction false} ReachedUnfetched(p: Pool, layers: seq<RemoteLayer>, i: nat, p': Pool, top: Option<Name>)
    requires i <= |layers| && Reached(p, layers, i, p', top) && !Fetches(p, layers)
    ensures p' == p && PresentBelow(p, layers, i)
    decreases i
  {
    if i > 0 {
      var q, t :| Reached(p, layers, i - 1, q, t) && Passes(q, layers[i - 1], t, p', top);
      ReachedUnfetched(p, layers, i - 1, q, t);
      assert !StoresAt(p, layers, i - 1);
      TurnUnfetched(p, layers, i - 1, t, p', top);
    }
  }

  lemma {:induction false} ReachedPresent(p: Pool, layers: seq<RemoteLayer>, i: nat)
    requires i <= |layers| && PresentBelow(p, layers, i)
    ensures Reached(p, layers, i, p, if i == 0 then None else Some(Layer(layers[i - 1].blob.id)))
    decreases i
  {
    if i > 0 {
      ReachedPresent(p, layers, i - 1);
      var top := if i == 1 then None else Some(Layer(layers[i - 2].blob.id));
      assert Passes(p, layers[i - 1], top, p, Some(Layer(layers[i - 1].blob.id)));
      assert TurnAfter(p, layers, i - 1, p, Some(Layer(layers[i - 1].blob.id)));
    }
  }

  /** A broken-off import can leave any content under the name of the first missing layer. */
  lemma {:induction false} ImportMayLeave(p: Pool, name: string, image: RemoteImage, i: nat, bytes: Bytes)
    requires image.virterImage && StoresAt(p, image.layers, i)
    ensures var top := if i == 0 then None else Some(Layer(image.layers[i - 1].blob.id));
            ImportOutcome(p, name, image, p[Layer(image.layers[i].blob.id) := Vol(top, bytes)], false)
  {
    var top := if i == 0 then None else Some(Layer(image.layers[i - 1].blob.id));
    var layer := Layer(image.layers[i].blob.id);
    var p' := p[layer := Vol(top, bytes)];
    ReachedPresent(p, image.layers, i);
    assert Adds(p, p', {layer}, top);
    assert BreaksOffAt(p, image.layers, i, p, top, p', false);
  }

  /** An import keeps every layer named by its digest however it ends, exactly if it gets to store none. */
  lemma {:induction false} ImportNamesExactly(p: Pool, digest: Vol -> Hash, name: string, image: RemoteImage)
    requires Injective(digest) && ContentAddressed(p, digest) && Sound(p)
    ensures (forall p', del :: ImportOutcome(p, name, image, p', del) ==> ContentAddressed(p', digest))
            <==> !(image.virterImage && Fetches(p, image.layers))
  {
    if image.virterImage && Fetches(p, image.layers) {
      var i :| 0 <= i < |image.layers| && StoresAt(p, image.layers, i);
      var top := if i == 0 then None else Some(Layer(image.layers[i - 1].blob.id));
      var layer := Layer(image.layers[i].blob.id);
      var junk := OtherContent(digest, top, layer.hash);
      var p' := p[layer := Vol(top, junk)];
      ImportMayLeave(p, name, image, i, junk);
      assert layer in p' && digest(p'[layer]) != layer.hash;
    } else {
      forall p', del | ImportOutcome(p, name, image, p', del) ensures ContentAddressed(p', digest) {
        UnfetchedKeepsLayers(p, name, image, p', del);
        SubmapContentAddressed(p, p', digest);
      }
    }
  }

  lemma {:induction false} UnfetchedKeepsLayers(p: Pool, name: string, image: RemoteImage, p': Pool, del: bool)
    requires Sound(p) && ImportOutcome(p, name, image, p', del) && (image.virterImage ==> !Fetches(p, image.layers))
    ensures NoNewLayers(p, p')
  {
    if p' != p {
      if LoopBreaksOff(p, image.layers, p', del) {
        var i, q, top :| 0 <= i < |image.layers| && BreaksOffAt(p, image.layers, i, q, top, p', del);
        ReachedUnfetched(p, image.layers, i, q, top);
        assert !StoresAt(p, image.layers, i);
        BreakUnfetched(p, image.layers, i, top, p', del);
      } else {
        var q, top :| Reached(p, image.layers, |image.layers|, q, top)
                      && if top.Some? then RetagOutcome(q, name, top.value, p') else p' == q;
        ReachedUnfetched(p, image.layers, |image.layers|, q, top);
        if top.Some? {
          RetagOutcomeNoNewLayers(p, name, top.value, p');
        }
      }
    }
  }

  /** The machine's boot volume becomes a new layer once the rest of it is gone. */
  predicate FetchesFrom(b: State, digest: Vol -> Hash, name: string, cfg: CommitConfig) {
    var (s1, removed) := Remove(b, name, !cfg.staticDhcp, false);
    removed.Pass? && Work(name) in s1.vols && Layer(digest(s1.vols[Work(name)])) !in s1.vols
  }

  predicate CommitFetches(s: State, digest: Vol -> Hash, name: string, cfg: CommitConfig) {
    && name in s.domains && Allowed(s.domains[name], cfg).Pass?
    && (FetchesFrom(s, digest, name, cfg) || FetchesFrom(Stopped(s, name), digest, name, cfg))
  }

  lemma {:induction false} EndsFromNames(b: State, digest: Vol -> Hash, name: string, cfg: CommitConfig, s': State,
                                         del: bool)
    requires Injective(digest) && ContentAddressed(b.vols, digest) && Sound(b.vols)
    requires EndsFrom(b, digest, name, cfg, s', del) && !FetchesFrom(b, digest, name, cfg)
    ensures ContentAddressed(s'.vols, digest)
  {
    if Attempt(b, s', name, !cfg.staticDhcp, false, false) {
      SubmapContentAddressed(b.vols, s'.vols, digest);
    } else {
      var p1 := Remove(b, name, !cfg.staticDhcp, false).0.vols;
      RemovedSound(b, name, !cfg.staticDhcp, false);
      SubmapContentAddressed(b.vols, p1, digest);
      if s'.vols != p1 {
        EndsTaggedNamesExactly(p1, digest, Work(name), cfg.image);
      }
    }
  }

  lemma {:induction false} MisnamesFrom(b: State, digest: Vol -> Hash, name: string, cfg: CommitConfig)
    returns (s': State)
    requires Injective(digest) && ContentAddressed(b.vols, digest) && Sound(b.vols) && FetchesFrom(b, digest, name, cfg)
    ensures EndsFrom(b, digest, name, cfg, s', false) && !ContentAddressed(s'.vols, digest)
  {
    var s1 := Remove(b, name, !cfg.staticDhcp, false).0;
    var id := digest(s1.vols[Work(name)]);
    var p' := Misnamed(s1.vols, digest, Work(name), Layer(id));
    assert ConvertedAndTagged(s1.vols, Work(name), id, cfg.image, p', None, p', false);
    assert EndsTagged(s1.vols, Work(name), id, cfg.image, p', false);
    s' := s1.(vols := p');
  }

  /** A commit keeps every layer named by its digest however it ends, exactly if it gets to store none. */
  lemma {:induction false} CommitNamesExactly(s: State, digest: Vol -> Hash, name: string, cfg: CommitConfig)
    requires Injective(digest) && ContentAddressed(s.vols, digest) && Sound(s.vols)
    ensures (forall s', del :: CommitOutcome(s, digest, name, cfg, s', del) ==> ContentAddressed(s'.vols, digest))
            <==> !CommitFetches(s, digest, name, cfg)
  {
    if CommitFetches(s, digest, name, cfg) {
      var b := if FetchesFrom(s, digest, name, cfg) then s else Stopped(s, name);
      var s' := MisnamesFrom(b, digest, name, cfg);
      assert CommitOutcome(s, digest, name, cfg, s', false);
    } else {
      forall s', del | CommitOutcome(s, digest, name, cfg, s', del) ensures ContentAddressed(s'.vols, digest) {
        if s' != s {
          if EndsFrom(s, digest, name, cfg, s', del) {
            EndsFromNames(s, digest, name, cfg, s', del);
          } else {
            EndsFromNames(Stopped(s, name), digest, name, cfg, s', del);
          }
        }
      }
    }
  }

  // ---------------------------------------------------------------- what a misnamed layer does

  lemma {:induction false} ImportLayersSound(p: Pool, layers: seq<RemoteLayer>, top: Option<Name>)
    requires Sound(p) && (top.Some? ==> top.value.Layer?)
    ensures var r := ImportLayers(p, layers, top);
            && Sound(r.pool) && Submap(p, r.pool)
            && (forall n :: n in r.pool && n !in p ==> n.Layer?)
            && (r.top.Some? ==> r.top.value.Layer?)
    decreases |layers|
  {
    if layers != [] && layers[0].virterLayer {
      var blob := layers[0].blob;
      var layer := Layer(blob.id);
      if layer in p {
        ImportLayersSound(p, layers[1..], Some(layer));
      } else if (top.Some? ==> top.value in p) && Work(ImportName(blob.id)) !in p {
        CreateSound(p, layer, Vol(top, blob.bytes));
        ImportLayersSound(p[layer := Vol(top, blob.bytes)], layers[1..], Some(layer));
      }
    }
  }

  /** The layers of the list that are there already are the listed ones. */
  ghost predicate PresentRight(p: Pool, blobs: seq<Blob>) {
    forall i :: 0 <= i < |blobs| ==> (Layer(blobs[i].id) in p ==> Holds(p, blobs, i))
  }

  lemma {:induction false} StoredRight(p: Pool, digest: Vol -> Hash, blobs: seq<Blob>, i: nat)
    requires Injective(digest) && WellFormed(blobs, digest) && i < |blobs| && PresentRight(p, blobs)
    ensures PresentRight(p[Layer(blobs[i].id) := Stored(blobs, i)], blobs)
  {
    var p1 := p[Layer(blobs[i].id) := Stored(blobs, i)];
    forall j | 0 <= j < |blobs| && Layer(blobs[j].id) in p1 ensures Holds(p1, blobs, j) {
      if blobs[j].id == blobs[i].id {
        assert RightDigest(blobs, digest, i) && RightDigest(blobs, digest, j);
        assert NoCollision(digest, Stored(blobs, i), Stored(blobs, j));
      } else {
        assert Holds(p, blobs, j);
      }
    }
  }

  lemma {:induction false} OneMoreHeld(p: Pool, blobs: seq<Blob>, i: nat)
    requires i < |blobs| && HoldsPrefix(p, blobs, i) && PresentRight(p, blobs) && Layer(blobs[i].id) in p
    ensures HoldsPrefix(p, blobs, i + 1)
  {
    assert Holds(p, blobs, i);
  }

  /** The import loop from layer i on, if what is there is right. */
  lemma {:induction false} LoopHolds(p: Pool, digest: Vol -> Hash, layers: seq<RemoteLayer>, i: nat)
    requires Injective(digest) && WellFormed(RemoteBlobs(layers), digest) && i <= |layers|
    requires PresentRight(p, RemoteBlobs(layers)) && HoldsPrefix(p, RemoteBlobs(layers), i)
    ensures var blobs := RemoteBlobs(layers);
            var r := ImportLayers(p, layers[i..], Below(blobs, i));
            r.outcome.Pass? ==> HoldsPrefix(r.pool, blobs, |blobs|) && r.top == Below(blobs, |blobs|)
    decreases |layers| - i
  {
    if i < |layers| {
      var blobs := RemoteBlobs(layers);
      var layer := Layer(blobs[i].id);
      assert layers[i..][0] == layers[i] && layers[i..][1..] == layers[i + 1..];
      assert Below(blobs, i + 1) == Some(layer);
      if layer in p {
        OneMoreHeld(p, blobs, i);
        LoopHolds(p, digest, layers, i + 1);
      } else {
        var p1 := p[layer := Stored(blobs, i)];
        StoredRight(p, digest, blobs, i);
        StoredHeld(p, blobs, i);
        LoopHolds(p1, digest, layers, i + 1);
      }
    }
  }

  /** What a chain that reads like the list says of each of its volumes. */
  lemma {:induction false} ListHeld(p: Pool, top: Name, blobs: seq<Blob>, i: nat)
    requires LayersOf(p, top, blobs) && i < |blobs|
    ensures Holds(p, blobs, i)
  {
    var q: seq<Name> :| ChainBlobs(p, top, q, blobs);
    assert q[i] == Layer(blobs[i].id);
    if i > 0 {
      assert DependsOn(p, q[i], q[i - 1]);
      assert q[i - 1] == Layer(blobs[i - 1].id);
    }
  }

  lemma {:induction false} LoopTop(p: Pool, layers: seq<RemoteLayer>, top: Option<Name>)
    requires ImportLayers(p, layers, top).outcome.Pass?
    ensures ImportLayers(p, layers, top).top == if layers == [] then top else Some(Layer(layers[|layers| - 1].blob.id))
    decreases |layers|
  {
    if layers != [] {
      var layer := Layer(layers[0].blob.id);
      LoopTop(if layer in p then p else p[layer := Vol(top, layers[0].blob.bytes)], layers[1..], Some(layer));
    }
  }

  /**
   In any sound pool, also one that is not content-addressed any more: an import that passes yields
   the listed layers exactly if those that were there already were the listed ones.
   */
  lemma {:induction false} ImportYieldsExactly(p: Pool, digest: Vol -> Hash, name: string, image: RemoteImage)
    requires Injective(digest) && Sound(p) && VirterImage(image, digest)
    requires Import(p, name, image).outcome.Pass?
    ensures var blobs := RemoteBlobs(image.layers);
            LayersOf(Import(p, name, image).pool, Layer(blobs[|blobs| - 1].id), blobs) <==> PresentRight(p, blobs)
  {
    var layers, blobs := image.layers, RemoteBlobs(image.layers);
    var top := Layer(blobs[|blobs| - 1].id);
    var p1, r := ImportLayers(p, layers, None).pool, Import(p, name, image).pool;
    ImportLayersSound(p, layers, None);
    LoopTop(p, layers, None);
    if PresentRight(p, blobs) {
      assert layers[0..] == layers && Below(blobs, 0) == None;
      LoopHolds(p, digest, layers, 0);
      HeldListIsChain(p1, blobs);
      RetagKeepsNewTop(p1, name, top, blobs);
    }
    if LayersOf(r, top, blobs) {
      RetagOutcomeNoNewLayers(p1, name, top, r);
      forall i | 0 <= i < |blobs| && Layer(blobs[i].id) in p ensures Holds(p, blobs, i) {
        ListHeld(r, top, blobs, i);
      }
    }
  }

  /**
   An import that breaks off can leave the first missing layer with another content, and then every
   later import of the image that passes yields an image that is not the listed one.
   */
  lemma {:induction false} BrokenImportStays(p: Pool, digest: Vol -> Hash, name: string, image: RemoteImage, i: nat)
    returns (p': Pool)
    requires Injective(digest) && Sound(p) && VirterImage(image, digest)
    requires StoresAt(p, image.layers, i)
    ensures ImportOutcome(p, name, image, p', false) && Sound(p')
    ensures var blobs := RemoteBlobs(image.layers);
            forall other :: Import(p', other, image).outcome.Pass? ==>
              !LayersOf(Import(p', other, image).pool, Layer(blobs[|blobs| - 1].id), blobs)
  {
    var blobs := RemoteBlobs(image.layers);
    var layer, top := Layer(blobs[i].id), Below(blobs, i);
    var junk := OtherContent(digest, top, layer.hash);
    p' := p[layer := Vol(top, junk)];
    ImportMayLeave(p, name, image, i, junk);
    ImportOutcomeSound(p, name, image, p', false);
    assert RightDigest(blobs, digest, i);
    assert layer in p' && !Holds(p', blobs, i);
    forall other | Import(p', other, image).outcome.Pass?
      ensures !LayersOf(Import(p', other, image).pool, Layer(blobs[|blobs| - 1].id), blobs) {
      ImportYieldsExactly(p', digest, other, image);
    }
  }

  /** And it does pass: an image of one layer, first broken off, then repeated. */
  lemma {:induction false} RepeatedImportPasses(name: string, blob: Blob, junk: Bytes)
    requires junk != blob.bytes
    ensures var image := RemoteImage(true, [RemoteLayer(blob, true)]);
            var p := map[Layer(blob.id) := Vol(None, junk)];
            && ImportOutcome(map[], name, image, p, false)
            && Import(p, name, image).outcome.Pass?
            && DependsOn(Import(p, name, image).pool, Tag(name), Layer(blob.id))
            && !LayersOf(Import(p, name, image).pool, Layer(blob.id), [blob])
  {
    var image := RemoteImage(true, [RemoteLayer(blob, true)]);
    var p: Pool := map[Layer(blob.id) := Vol(None, junk)];
    var p0: Pool := map[];
    ImportMayLeave(p0, name, image, 0, junk);
    assert p0[Layer(blob.id) := Vol(None, junk)] == p;
    assert image.layers[1..] == [];
    assert ImportLayers(p, image.layers, None) == Imported(p, Some(Layer(blob.id)), Pass);
    var r := Import(p, name, image).pool;
    if LayersOf(r, Layer(blob.id), [blob]) {
      ListHeld(r, Layer(blob.id), [blob], 0);
    }
  }
}

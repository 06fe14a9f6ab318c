/** A repack after one that has crashed, with one more blob to pack. */
module RepackAgain {
  import opened Bytes
  import opened Codecs
  import opened Disks
  import opened GcSafety
  import opened Inventory
  import opened PackFormat
  import opened PackTheorems
  import opened RepackCrash
  import opened RepackLoss
  import opened RepackReads
  import opened StoreModel
  import opened StoreRefinement

  /** The store restarts on the tree a crash left, one more blob is put, and all
      that is loose can be packed. The index it would write is in play. */
  ghost predicate OneMore(c: Codec, g: Contents, e: Files, k: Digest, raw: Bytes, s: State) {
    && Loose(k) !in e && GoodLoose(c, g, k, raw) && s.files == e[Loose(k) := raw]
    && Packs(c, g, s) && InPlay(c, g, CreatedIndex(c, ToPack(g, s)))
  }

  /** A different set of loose blobs gives a different name. */
  lemma NamesDiffer(c: Codec, g: Contents, f: Files, f': Files, a: seq<Blob>, b: seq<Blob>)
    requires Packing(c, g, f, a) && Packing(c, g, f', b) && LooseHashes(f) != LooseHashes(f')
    requires InPlay(c, g, CreatedIndex(c, a)) && InPlay(c, g, CreatedIndex(c, b))
    ensures PackName(c, a) != PackName(c, b)
  {
    hide ParseIndex, CreatedIndex, LooseHashes, LooseTruthful, Packing, Loaded, Hashes;
    PackLists(c, g, f, a);
    PackLists(c, g, f', b);
    if PackName(c, a) == PackName(c, b) {
      StemOfInjective(c.hash(CreatedIndex(c, a)), c.hash(CreatedIndex(c, b)));
    }
  }

  lemma RepackablePacking(c: Codec, g: Contents, f: Files)
    requires Repackable(c, g, f)
    ensures Packing(c, g, f, Objects(g, LooseList(f)))
  {
    RepackableTruthful(c, g, f);
  }

  lemma MoreLoose(c: Codec, g: Contents, f: Files, e: Files, k: Digest, raw: Bytes, s: State)
    requires Repackable(c, g, f) && OneMore(c, g, e, k, raw, s) && LooseHashes(e) == LooseHashes(f)
    ensures RepackName(c, g, f) != PackName(c, ToPack(g, s))
  {
    hide ParseIndex, CreatedIndex, PackBytes, LooseTruthful, ToPack, Packing, PackName, NameFits;
    RepackablePacking(c, g, f);
    LooseHashesExact(e);
    LooseHashesExact(s.files);
    assert k in LooseHashes(s.files) && k !in LooseHashes(f);
    assert InPlay(c, g, CreatedIndex(c, Objects(g, LooseList(f))));
    NamesDiffer(c, g, f, s.files, Objects(g, LooseList(f)), ToPack(g, s));
  }

  /** A repack crashes inside its index write; one more blob is put; a repack
      completes. All loose blobs read before it, and no blob whose loose file it
      deletes reads after it: the new pack has another name, and the torn index
      stays. Every call has answered Ok. */
  lemma AfterTornIndex(cfg: Config, g: Contents, f: Files, n: nat, e: Files, k: Digest, raw: Bytes, s: State,
                       threshold: nat, m: nat, got: seq<Blob>, s': State, h: Digest)
    requires Repackable(cfg.c, g, f)
    requires var objects, q := Objects(g, LooseList(f)), RepackName(cfg.c, g, f);
             n < |CreatedIndex(cfg.c, objects)| && e == f[Pack(q) := PackBytes(cfg.c, objects)][Idx(q) := CreatedIndex(cfg.c, objects)[..n]]
    requires OneMore(cfg.c, g, e, k, raw, s)
    requires Next(cfg, s, Repack(threshold), Repacked(Ok(m), got), s') && m > 0
    requires Loose(h) in s.files
    ensures ReadsAs(cfg.c, s.files, h, g(h))
    ensures Loose(h) !in s'.files ==> forall d :: !ReadsAs(cfg.c, s'.files, h, d)
  {
    hide ParseIndex, IndexBytes, PackBytes, LooseTruthful, ToPack, Packs, Packing, PackName, Next, ReadsAs, Objects, LooseList, Repackable, LooseHashes;
    var q := RepackName(cfg.c, g, f);
    LooseHashesExact(f);
    LooseHashesExact(e);
    assert LooseHashes(e) == LooseHashes(f);
    MoreLoose(cfg.c, g, f, e, k, raw, s);
    RepackReadsExactly(cfg, g, s, threshold, m, got, s', h);
    TornRejected(cfg.c, g, f, n);
    assert Paired(s.files, q) && !Indexed(s.files, q);
    if Loose(h) !in s'.files { RepackLoses(cfg, g, s, threshold, m, got, s', h); }
  }

  lemma TornRejected(c: Codec, g: Contents, f: Files, n: nat)
    requires Repackable(c, g, f) && n < |CreatedIndex(c, Objects(g, LooseList(f)))|
    ensures ParseIndex(CreatedIndex(c, Objects(g, LooseList(f)))[..n]).Err?
  {
    hide IndexBytes, Objects, LooseList;
    LoosePackable(c, g, f);
    TornIndexRejected(EntriesOf(c, Objects(g, LooseList(f))), n);
  }

  /** A repack is to write the pack of an earlier one again, whose deletions all
      failed, and crashes inside; one more blob is put; a repack completes. A blob
      of the torn pack whose loose file is now deleted reads if and only if it is
      among the records that are whole; no read of the others succeeds any more. */
  lemma AfterTornPack(cfg: Config, g: Contents, f: Files, half: Bytes, e: Files, k: Digest, raw: Bytes, s: State,
                      threshold: nat, m: nat, got: seq<Blob>, s': State, h: Digest)
    requires Repackable(cfg.c, g, f) && AllIndexed(f) && Indexed(f, RepackName(cfg.c, g, f))
    requires e == f[Pack(RepackName(cfg.c, g, f)) := half] && OneMore(cfg.c, g, e, k, raw, s)
    requires TrueFor(g, s.blobCache, LooseHashes(s.files))
    requires Next(cfg, s, Repack(threshold), Repacked(Ok(m), got), s') && m > 0
    requires Loose(h) in f && Loose(h) !in s'.files
    ensures var read := ReadBlob(cfg.c, half, ParseIndex(f[Idx(RepackName(cfg.c, g, f))]).value, h);
            && (ReadsAs(cfg.c, s'.files, h, g(h)) <==> read == Ok(g(h)))
            && (read.Err? ==> forall d :: !ReadsAs(cfg.c, s'.files, h, d))
  {
    hide ParseIndex, ReadBlob, IndexBytes, PackBytes, LooseTruthful, ToPack, Packing, PackName, Next, ReadsAs, LooseHashes, LooseList, WellFormed, CreatedIndex, NameFits, Present;
    var q, q' := RepackName(cfg.c, g, f), PackName(cfg.c, ToPack(g, s));
    LooseHashesExact(f);
    LooseHashesExact(e);
    assert LooseHashes(e) == LooseHashes(f);
    MoreLoose(cfg.c, g, f, e, k, raw, s);
    RepackReadsExactly(cfg, g, s, threshold, m, got, s', h);
    ToPackTrue(g, s);
    TrueBlobs(g, s.files);
    OldPackHoldsLoose(cfg.c, g, f);
    PresentExact(f);
    forall t | t != q ensures SamePack(f, s.files, t) && Indexed(f, t) == Indexed(s.files, t) && HashesOf(f, t) == HashesOf(s.files, t) {
      SamePackHashes(f, s.files, t);
    }
    assert OthersLoad(s.files, q');
    forall t | t != q && Indexed(s.files, t) && h in HashesOf(s.files, t)
      ensures ReadBlob(cfg.c, s.files[Pack(t)], ParseIndex(s.files[Idx(t)]).value, h) == Ok(g(h))
    {
      PackContent(cfg.c, g, f, t, h);
    }
    assert Indexed(s.files, q) && HashesOf(s.files, q) == HashesOf(f, q);
    if ReadBlob(cfg.c, half, ParseIndex(f[Idx(q)]).value, h).Err? {
      assert OtherFails(cfg.c, s.files, q', h);
      RepackLoses(cfg, g, s, threshold, m, got, s', h);
    }
  }

  /** With the same loose blobs the next repack writes the torn pair again, and all
      is well: it reads what it read before the crash, and nothing else. */
  lemma TornIndexHealed(cfg: Config, g: Contents, f: Files, n: nat, s: State, threshold: nat, m: nat, got: seq<Blob>, s': State, h: Digest, d: Bytes)
    requires Repackable(cfg.c, g, f) && AllIndexed(f)
    requires var objects, q := Objects(g, LooseList(f)), RepackName(cfg.c, g, f);
             && n < |CreatedIndex(cfg.c, objects)|
             && s.files == f[Pack(q) := PackBytes(cfg.c, objects)][Idx(q) := CreatedIndex(cfg.c, objects)[..n]]
    requires TrueFor(g, s.blobCache, LooseHashes(s.files))
    requires Next(cfg, s, Repack(threshold), Repacked(Ok(m), got), s') && m > 0
    ensures AllIndexed(s'.files)
    ensures ReadsAs(cfg.c, f, h, d) <==> ReadsAs(cfg.c, s'.files, h, d)
  {
    hide ParseIndex, IndexBytes, PackBytes, LooseTruthful, PackName, LooseList, WellFormed, CreatedIndex, Present, ReadsAs, LooseHashes, Objects, AllIndexed, Repackable, RepackRun, RepackEffects;
    var c, q := cfg.c, RepackName(cfg.c, g, f);
    RepackableTruthful(c, g, f);
    assert Unaliased(f) by { RepackableUnaliased(c, g, f); }
    SameLoose(c, g, f, s.files, q);
    var steps :| RepackRun(cfg, s, threshold, Ok(m), got, steps, s');
    var failed := RepackRunEffects(cfg, g, s, threshold, Ok(m), got, steps, s');
    RepackedSomething(cfg, s, threshold, m, got, steps, s');
    Overwritten(c, g, f, s.files, failed);
    var effects := RepackEffects(c, g, f, failed);
    FirstIsPack(c, g, f, failed);
    assert effects[..|effects|] == effects;
    RepackPrefix(c, g, f, failed, |effects|);
    SamePresentReads(c, g, f, s'.files, h, d);
  }

  lemma RepackableUnaliased(c: Codec, g: Contents, f: Files)
    requires Repackable(c, g, f)
    ensures Unaliased(f)
  {
  }

  lemma SameLoose(c: Codec, g: Contents, f: Files, f': Files, q: Name)
    requires forall p: Path | p != Pack(q) && p != Idx(q) :: SameAt(f, f', p)
    ensures LooseTruthful(c, g, f) ==> LooseTruthful(c, g, f')
    ensures Unaliased(f) ==> Unaliased(f')
    ensures LooseList(f) == LooseList(f')
    ensures forall failed :: RepackEffects(c, g, f', failed) == RepackEffects(c, g, f, failed)
  {
    hide PackBytes, CreatedIndex, PackName, Objects;
    forall h: Digest | Loose(h) in f' ensures LooseTruthful(c, g, f) ==> GoodLoose(c, g, h, f'[Loose(h)]) {
      assert SameAt(f, f', Loose(h));
    }
    forall p | p in f' && p.Alias? ensures p in f { assert SameAt(f, f', p); }
    LooseHashesExact(f);
    LooseHashesExact(f');
    forall h: Digest ensures h in LooseHashes(f) <==> h in LooseHashes(f') { assert SameAt(f, f', Loose(h)); }
    assert LooseHashes(f) == LooseHashes(f');
  }

  lemma RepackedSomething(cfg: Config, s: State, threshold: nat, m: nat, got: seq<Blob>, steps: seq<Step>, s': State)
    requires RepackRun(cfg, s, threshold, Ok(m), got, steps, s') && m > 0
    ensures steps != []
  {
    hide GetsNext, IsListing, Happened;
  }

  /** The repack's own writes replace what is under its name. */
  lemma Overwritten(c: Codec, g: Contents, f: Files, f': Files, failed: set<Digest>)
    requires forall p: Path | p != Pack(RepackName(c, g, f)) && p != Idx(RepackName(c, g, f)) :: SameAt(f, f', p)
    ensures ApplyAll(f', RepackEffects(c, g, f, failed)) == ApplyAll(f, RepackEffects(c, g, f, failed))
  {
    hide PackBytes, CreatedIndex, PackName, Objects, LooseList, Deletions;
    var objects := Objects(g, LooseList(f));
    var q, w, dels := PackName(c, objects), CreateSteps(c, objects), Deletions(LooseList(f), failed);
    ApplyAllConcat(f, w, dels);
    ApplyAllConcat(f', w, dels);
    ApplyTwo(f, w[0], w[1]);
    ApplyTwo(f', w[0], w[1]);
    assert w == [w[0], w[1]];
    SameFiles(f, f', q, w[0].data, w[1].data);
  }

  lemma SameFiles(f: Files, f': Files, q: Name, a: Bytes, b: Bytes)
    requires forall p: Path | p != Pack(q) && p != Idx(q) :: SameAt(f, f', p)
    ensures f[Pack(q) := a][Idx(q) := b] == f'[Pack(q) := a][Idx(q) := b]
  {
    var e, e' := f[Pack(q) := a][Idx(q) := b], f'[Pack(q) := a][Idx(q) := b];
    forall p ensures p in e.Keys <==> p in e'.Keys {
      assert p != Pack(q) && p != Idx(q) ==> SameAt(f, f', p);
    }
    forall p | p in e ensures e[p] == e'[p] {
      assert p != Pack(q) && p != Idx(q) ==> SameAt(f, f', p);
    }
  }
}

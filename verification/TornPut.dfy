/** A put that crashes inside its write, and a sweep afterwards. */
module TornPut {
  import opened Bytes
  import opened Codecs
  import opened Damage
  import opened Disks
  import opened GcEvict
  import opened GcModel
  import opened GcOutcome
  import opened GcPlanning
  import opened GcRewrite
  import opened GcSafety
  import opened GcWitness
  import opened Inventory
  import opened PackFormat
  import opened StoreModel

  /** After a torn put every other digest reads as before, loose or packed; its own
      reads as what the half file decodes to, if that hashes to it, and a good copy
      in a pack is not looked at. */
  lemma TornPutReads(cfg: Config, f: Files, data: Bytes, n: nat, h: Digest, k: Digest, d: Bytes)
    requires cfg.c.hash(data) == h && Loose(h) !in f && n < |Encode(cfg.c, cfg.compress, data)|
    ensures var half := Encode(cfg.c, cfg.compress, data)[..n];
            ReadsAs(cfg.c, Torn(f, Write(Loose(h), Encode(cfg.c, cfg.compress, data)), n), k, d) <==>
            if k == h then Decode(cfg.c, half) == Ok(d) && cfg.c.hash(d) == h else ReadsAs(cfg.c, f, k, d)
    ensures !cfg.compress && !IsZstdCompressed(data) ==> Decode(cfg.c, Encode(cfg.c, cfg.compress, data)[..n]) != Ok(data)
  {
    hide ParseIndex, ReadBlob, Decompress;
    var raw := Encode(cfg.c, cfg.compress, data);
    var f' := f[Loose(h) := raw[..n]];
    forall s ensures Paired(f', s) == Paired(f, s) && Indexed(f', s) == Indexed(f, s) && HashesOf(f', s) == HashesOf(f, s) {
      assert SamePack(f, f', s);
    }
    if n >= 4 { assert raw[..n][..4] == raw[..4]; }
  }

  /* Trees that differ in one loose file */

  ghost predicate Twins(f: Files, f': Files, h: Digest) {
    && Loose(h) in f && f.Keys == f'.Keys
    && forall p | p in f && p != Loose(h) :: f'[p] == f[p]
  }

  lemma TwinPacks(f: Files, f': Files, h: Digest)
    requires Twins(f, f', h)
    ensures forall s :: SamePack(f, f', s) && Paired(f, s) == Paired(f', s) && Indexed(f, s) == Indexed(f', s) && HashesOf(f, s) == HashesOf(f', s)
  {
    hide ParseIndex;
    SameKeys(f, f');
    DamagedPacks(f, f');
  }

  lemma {:induction false} TwinSizes(f: Files, f': Files, h: Digest, ps: seq<Path>)
    requires Twins(f, f', h) && Loose(h) !in ps
    ensures SumSizes(f, ps) == SumSizes(f', ps)
  {
    if ps != [] {
      var p := ps[|ps| - 1];
      assert p in ps && (p in f.Keys <==> p in f'.Keys);
      TwinSizes(f, f', h, ps[..|ps| - 1]);
    }
  }

  /** What the file of a live blob holds makes no difference to a plan. */
  lemma TwinPlan(f: Files, f': Files, h: Digest, live: set<Digest>)
    requires Twins(f, f', h) && h in live
    ensures PlanOf(f, live) == PlanOf(f', live) && PlanFails(f, live) == PlanFails(f', live)
  {
    hide DecisionOf, LooseGarbage, Unreadable, SumSizes, OrphanList, Listing;
    DamagedPlan(f, f', live);
    var garbage, d := LooseGarbage(f, live), DecisionOf(f, live);
    GarbageIsDead(f, live);
    TwinSizes(f, f', h, LoosePaths(garbage));
    PairPathsExact(d.remove, Loose(h));
    TwinSizes(f, f', h, PairPaths(d.remove));
  }

  lemma GarbageIsDead(f: Files, live: set<Digest>)
    ensures forall h: Digest | h in live :: Loose(h) !in LoosePaths(LooseGarbage(f, live))
  {
    var garbage := LooseGarbage(f, live);
    forall i | 0 <= i < |garbage| ensures garbage[i] !in live {
      assert garbage[i] in garbage;
    }
  }

  lemma {:induction false} TwinApply(f: Files, f': Files, h: Digest, steps: seq<Step>)
    requires Twins(f, f', h) && Avoids(steps, Loose(h))
    ensures Twins(ApplyAll(f, steps), ApplyAll(f', steps), h)
    ensures ApplyAll(f', steps)[Loose(h)] == f'[Loose(h)]
    decreases |steps|
  {
    if steps != [] {
      assert steps[0] in steps && forall s | s in steps[1..] :: s in steps;
      SameKeys(f, f');
      TwinApply(Apply(f, steps[0]), Apply(f', steps[0]), h, steps[1..]);
    }
  }

  lemma TwinKeep(c: Codec, f: Files, f': Files, h: Digest, r: Rewrite)
    requires Twins(f, f', h)
    ensures ReadKeep(c, f, r) == ReadKeep(c, f', r)
  {
    hide ParseIndex, ReadEach;
    TwinPacks(f, f', h);
  }

  lemma {:induction false} TwinRewrite(c: Codec, f: Files, f': Files, h: Digest, rs: seq<Rewrite>)
    requires Twins(f, f', h)
    ensures RewritePhase(c, f, rs) == RewritePhase(c, f', rs)
    ensures Avoids(RewritePhase(c, f, rs).steps, Loose(h))
    decreases |rs|
  {
    hide ReadKeep, PackBytes, CreatedIndex, PackName;
    if rs != [] {
      TwinKeep(c, f, f', h, rs[0]);
      match ReadKeep(c, f, rs[0]) {
        case None =>
        case Some(objects) =>
          if objects != [] {
            var steps := CreateSteps(c, objects);
            TwinApply(f, f', h, steps);
            var f1, f1' := ApplyAll(f, steps), ApplyAll(f', steps);
            TwinPairs(f1, f1', h);
            TwinRewrite(c, f1, f1', h, rs[1..]);
          }
      }
    }
  }

  lemma TwinPairs(f: Files, f': Files, h: Digest)
    requires Twins(f, f', h)
    ensures forall s :: PairSize(f, s) == PairSize(f', s)
  {
    SameKeys(f, f');
  }

  lemma {:induction false} TwinEvict(f: Files, f': Files, h: Digest, mode: SweepMode, ps: seq<Path>)
    requires Twins(f, f', h) && Loose(h) !in ps
    ensures EvictPhase(f, mode, ps) == EvictPhase(f', mode, ps)
    ensures Avoids(EvictPhase(f, mode, ps), Loose(h))
    decreases |ps|
  {
    if ps != [] {
      var steps := EvictSteps(f, mode, ps[0]);
      SameKeys(f, f');
      assert ps[0] in ps && steps == EvictSteps(f', mode, ps[0]);
      TwinApply(f, f', h, steps);
      TwinEvict(ApplyAll(f, steps), ApplyAll(f', steps), h, mode, ps[1..]);
    }
  }

  /** A sweep does the same, and leaves the file as it is. */
  lemma TwinSweep(c: Codec, f: Files, f': Files, h: Digest, live: set<Digest>, o: Options)
    requires Twins(f, f', h) && h in live
    ensures SweepOutcome(c, f, live, o) == SweepOutcome(c, f', live, o)
    ensures Twins(After(c, f, live, o), After(c, f', live, o), h)
    ensures After(c, f', live, o)[Loose(h)] == f'[Loose(h)]
  {
    hide RewritePhase, PlanOf, EvictPhase, SumSizes, Victims, Avoids, ApplyAll;
    var rs, victims := PlanOf(f, live).packsToRewrite, VictimsOf(f, live, o);
    TwinPlan(f, f', h, live);
    NothingAvoids(h);
    TwinRewrite(c, f, f', h, rs);
    var first := FirstPhase(c, f, live, o);
    assert first == FirstPhase(c, f', live, o) && Avoids(first.steps, Loose(h));
    TwinApply(f, f', h, first.steps);
    var f1, f1' := ApplyAll(f, first.steps), ApplyAll(f', first.steps);
    if !PlanFails(f, live) {
      VictimsExact(f, live, o.rewritePartialPacks, Loose(h));
      TwinEvict(f1, f1', h, o.mode, victims);
      TwinSizes(f1, f1', h, victims);
      AvoidsConcat(first.steps, EvictPhase(f1, o.mode, victims), h);
    }
    TwinApply(f, f', h, SweepSteps(c, f, live, o));
  }

  lemma NothingAvoids(h: Digest)
    ensures Avoids([], Loose(h))
  {
  }

  lemma AvoidsConcat(a: seq<Step>, b: seq<Step>, h: Digest)
    requires Avoids(a, Loose(h)) && Avoids(b, Loose(h))
    ensures Avoids(a + b, Loose(h))
  {
  }

  /* The packed copy of a digest that is listed under a file */

  /** A pack that a sweep leaves holds the digest: it has no garbage, or it is one
      that a rewriting sweep would replace and this one does not. */
  ghost predicate CopySpared(f: Files, live: set<Digest>, o: Options, h: Digest) {
    || (exists s :: Healthy(f, live, s) && h in HashesOf(f, s))
    || (!o.rewritePartialPacks && exists r :: r in PlanOf(f, live).packsToRewrite && h in HashesOf(f, r.pack))
  }

  /** A pack without garbage comes through any sweep. */
  lemma HealthyStays(c: Codec, g: Contents, f: Files, live: set<Digest>, o: Options, s: Name)
    requires Sweepable(c, g, f, live) && !o.mode.DryRun? && Healthy(f, live, s)
    ensures var f' := After(c, f, live, o); Indexed(f', s) && HashesOf(f', s) == HashesOf(f, s)
  {
    hide ParseIndex, ReadBlob, PlanOf, NewName, WellFormed, SweepSteps, Victims, FirstPhase, After, Midway, Executed;
    var f1, f' := Midway(c, f, live, o), After(c, f, live, o);
    AfterEvicted(c, g, f, live, o);
    VictimsExact(f, live, o.rewritePartialPacks, Pack(s));
    VictimsExact(f, live, o.rewritePartialPacks, Idx(s));
    if s in Removals(PlanOf(f, live), o.rewritePartialPacks) {
      RemovalIsPartial(f, live, o.rewritePartialPacks, s);
    }
    assert SamePack(f, f1, s) && SameAt(f1, f', Pack(s)) && SameAt(f1, f', Idx(s));
    SamePackHashes(f, f', s);
  }

  /** A listed digest stays packed exactly then. */
  lemma ListedStaysPackedExactly(c: Codec, g: Contents, f: Files, live: set<Digest>, o: Options, h: Digest)
    requires Sweepable(c, g, f, live) && !o.mode.DryRun? && h in ListedHashes(f)
    ensures var f' := After(c, f, live, o);
            (exists s :: Indexed(f', s) && h in HashesOf(f', s)) <==> CopySpared(f, live, o, h)
  {
    hide ParseIndex, ReadBlob, PlanOf, NewName, WellFormed, SweepSteps, After, Indexed, HashesOf, ListedHashes, HealthyIn, Sweepable, Partial;
    var f', rs := After(c, f, live, o), PlanOf(f, live).packsToRewrite;
    PlanFacts(f, live);
    if s :| Healthy(f, live, s) && h in HashesOf(f, s) {
      HealthyStays(c, g, f, live, o, s);
    } else if !o.rewritePartialPacks && exists r :: r in rs && h in HashesOf(f, r.pack) {
      var r :| r in rs && h in HashesOf(f, r.pack);
      RetainedStays(c, g, f, live, o, r);
    } else if s :| Indexed(f', s) && h in HashesOf(f', s) {
      AfterPack(c, g, f, live, o, s);
      RewrittenPack(rs, s);
    }
  }

  lemma RewrittenPack(rs: seq<Rewrite>, s: Name)
    ensures s in RewrittenPacks(rs) ==> exists r :: r in rs && r.pack == s
  {
    if s in RewrittenPacks(rs) {
      var i :| 0 <= i < |rs| && RewrittenPacks(rs)[i] == s;
      assert rs[i] in rs;
    }
  }

  lemma AfterTruthful(c: Codec, g: Contents, f: Files, live: set<Digest>, o: Options)
    requires Sweepable(c, g, f, live) && !o.mode.DryRun? && AllIndexed(f)
    ensures WellFormed(c, g, After(c, f, live, o)) && AllIndexed(After(c, f, live, o))
  {
    hide ParseIndex, ReadBlob, PlanOf, NewName, WellFormed, SweepSteps, Victims, FirstPhase, After, Midway, Executed, AllIndexed;
    AfterEvicted(c, g, f, live, o);
    WithinWellFormed(c, g, After(c, f, live, o), Midway(c, f, live, o));
    WithinAllIndexed(After(c, f, live, o), Midway(c, f, live, o));
  }

  /** Without its loose file, a digest of such a tree reads from a pack or not. */
  lemma ReadsFromPacks(c: Codec, g: Contents, f: Files, h: Digest)
    requires WellFormed(c, g, f) && AllIndexed(f)
    ensures var bare := f - {Loose(h)};
            if exists s :: Indexed(f, s) && h in HashesOf(f, s) then ReadsAs(c, bare, h, g(h)) else forall d :: !ReadsAs(c, bare, h, d)
  {
    hide ParseIndex, ReadBlob, WellFormed, ReadsAs, Present, AllIndexed, Indexed, HashesOf;
    var bare := f - {Loose(h)};
    WithinWellFormed(c, g, bare, f);
    WithinAllIndexed(bare, f);
    WellFormedReads(c, g, bare, h);
    PresentExact(bare);
    forall s ensures Indexed(bare, s) == Indexed(f, s) && HashesOf(bare, s) == HashesOf(f, s) {
      SamePackHashes(f, bare, s);
    }
  }

  /** A torn put of a live blob whose good copy is packed, and then a sweep. The torn
      file is kept as it is, and until the sweep deleting it would have given the blob
      back. After the sweep it still does if and only if some pack without garbage
      holds the blob (or, without rewriting, a pack that is spared); else no read
      finds the blob any more: the sweep takes the torn file for a copy. The same
      goes for a loose file damaged in any other way. */
  lemma SweepAfterTornPut(c: Codec, g: Contents, f: Files, h: Digest, half: Bytes, live: set<Digest>, o: Options)
    requires Lawful(c) && WellFormed(c, g, f) && AllIndexed(f)
    requires h in live && Loose(h) !in f && h in PackedHashes(f)
    requires var torn := f[Loose(h) := half];
             !o.mode.DryRun? && !PlanFails(torn, live) && ReplacementsInPlay(c, g, PlanOf(torn, live).packsToRewrite)
    ensures ReadsAs(c, f[Loose(h) := half] - {Loose(h)}, h, g(h))
    ensures var torn := f[Loose(h) := half]; var swept := After(c, torn, live, o);
            && SweepOutcome(c, torn, live, o).ok
            && Loose(h) in swept && swept[Loose(h)] == half
            && (ReadsAs(c, swept - {Loose(h)}, h, g(h)) <==> CopySpared(torn, live, o, h))
            && (!CopySpared(torn, live, o, h) ==> forall d :: !ReadsAs(c, swept - {Loose(h)}, h, d))
  {
    hide ParseIndex, ReadBlob, PlanOf, WellFormed, ReadsAs, After, SweepOutcome, AllIndexed, Indexed, HashesOf, PlanFails, Twins, CopySpared;
    var torn, whole := f[Loose(h) := half], f[Loose(h) := c.compress(g(h))];
    var swept, clean := After(c, torn, live, o), After(c, whole, live, o);
    PackedHashesExact(f);
    ReadsFromPacks(c, g, f, h);
    assert torn - {Loose(h)} == f - {Loose(h)};
    WholeTruthful(c, g, f, h);
    TornTwins(f, h, c.compress(g(h)), half);
    TwinPlan(whole, torn, h, live);
    TwinSweep(c, whole, torn, h, live, o);
    SweepShape(c, g, whole, live, o);
    AfterTruthful(c, g, whole, live, o);
    IsListed(whole, h);
    ListedStaysPackedExactly(c, g, whole, live, o, h);
    SameCopies(whole, torn, h, live, o);
    ReadsFromPacks(c, g, clean, h);
    TwinsBare(clean, swept, h);
  }

  lemma WholeTruthful(c: Codec, g: Contents, f: Files, h: Digest)
    requires Lawful(c) && WellFormed(c, g, f) && AllIndexed(f) && Loose(h) !in f && h in PackedHashes(f)
    ensures WellFormed(c, g, f[Loose(h) := c.compress(g(h))]) && AllIndexed(f[Loose(h) := c.compress(g(h))])
  {
    hide ParseIndex, ReadBlob;
    var whole := f[Loose(h) := c.compress(g(h))];
    PackedHashesExact(f);
    var t :| Indexed(f, t) && h in HashesOf(f, t);
    PackContent(c, g, f, t, h);
    assert c.inflate(c.compress(g(h))) == Some(g(h));
    forall s ensures Paired(whole, s) == Paired(f, s) && Indexed(whole, s) == Indexed(f, s) {
      assert SamePack(f, whole, s);
    }
    forall s | Indexed(whole, s) ensures GoodPack(c, g, s, whole[Pack(s)], whole[Idx(s)]) {
      assert GoodPack(c, g, s, f[Pack(s)], f[Idx(s)]);
    }
    forall k: Digest | Loose(k) in whole ensures GoodLoose(c, g, k, whole[Loose(k)]) {
      if k != h { assert GoodLoose(c, g, k, f[Loose(k)]); }
    }
  }

  lemma TornTwins(f: Files, h: Digest, a: Bytes, b: Bytes)
    ensures Twins(f[Loose(h) := a], f[Loose(h) := b], h)
  {
  }

  lemma TwinsBare(f: Files, f': Files, h: Digest)
    requires Twins(f, f', h)
    ensures f - {Loose(h)} == f' - {Loose(h)} && Loose(h) in f'
  {
    SameKeys(f, f');
  }

  lemma IsListed(f: Files, h: Digest)
    requires Loose(h) in f
    ensures h in ListedHashes(f)
  {
    ListedHashesExact(f);
    assert Names(Loose(h), h);
  }

  lemma SameCopies(f: Files, f': Files, h: Digest, live: set<Digest>, o: Options)
    requires Twins(f, f', h) && PlanOf(f, live) == PlanOf(f', live)
    ensures CopySpared(f, live, o, h) == CopySpared(f', live, o, h)
  {
    hide PlanOf, Indexed, HashesOf;
    TwinPacks(f, f', h);
    assert forall s :: Healthy(f, live, s) == Healthy(f', live, s);
  }

  /* A concrete tree */

  lemma TornTree()
    ensures var torn := Tree()[Loose(KEPT) := [0x28]];
            && ListedHashes(torn) == {KEPT} && LooseHashes(torn) == {KEPT}
            && (forall s :: Indexed(torn, s) <==> s == PackName(Toy(), Both()))
            && HashesOf(torn, PackName(Toy(), Both())) == {KEPT, SWEPT}
  {
    hide ParseIndex, ReadBlob, PackBytes, CreatedIndex, PackName, Tree, Toy;
    var torn := Tree()[Loose(KEPT) := [0x28]];
    TreeGood();
    TreeFiles();
    forall s ensures Indexed(torn, s) == Indexed(Tree(), s) && HashesOf(torn, s) == HashesOf(Tree(), s) {
      assert SamePack(Tree(), torn, s);
    }
    LooseHashesExact(torn);
    ListedHashesExact(torn);
  }

  lemma TornFile(f: Files, torn: Files)
    requires torn == f[Loose(KEPT) := [0x28]]
    ensures Torn(f, Write(Loose(KEPT), Encode(Toy(), true, [])), 1) == torn
    ensures forall d :: !ReadsAs(Toy(), torn, KEPT, d)
  {
    hide ParseIndex, ReadBlob, Find;
    assert Encode(Toy(), true, []) == ZSTD_MAGIC + [] == ZSTD_MAGIC;
    assert ZSTD_MAGIC[..1] == [0x28];
    assert ToyHash([0x28])[0] == 1 && KEPT[0] == 0;
  }

  /** A pack holds a live and a dead blob; the live one is put again, and the put
      crashes after its first byte. Every sweep that is no dry run then succeeds and
      removes the pack, and no read finds the blob, with the torn file or without. */
  lemma TornPutCanLose(o: Options)
    requires !o.mode.DryRun?
    ensures ReadsAs(Toy(), Tree(), KEPT, [])
    ensures var torn := Torn(Tree(), Write(Loose(KEPT), Encode(Toy(), true, [])), 1);
            var swept := After(Toy(), torn, {KEPT}, o);
            && SweepOutcome(Toy(), torn, {KEPT}, o).ok
            && forall d :: !ReadsAs(Toy(), swept, KEPT, d) && !ReadsAs(Toy(), swept - {Loose(KEPT)}, KEPT, d)
  {
    hide ParseIndex, ReadBlob, PackBytes, CreatedIndex, PackName, Tree, PlanOf, WellFormed, After, SweepOutcome, Present, HashesOf, Indexed, Toy, Strings, CopySpared, AllIndexed;
    var f, torn, live, q := Tree(), Tree()[Loose(KEPT) := [0x28]], {KEPT}, PackName(Toy(), Both());
    TreeGood();
    TreeTidy();
    TreeFiles();
    TornTree();
    TornFile(f, torn);
    SmallStrings();
    NothingKept(torn, live, PlanOf(torn, live).packsToRewrite);
    assert SWEPT !in live;
    KeptIsPacked();
    NothingSpared(torn, live, q, o);
    SweepAfterTornPut(Toy(), Strings, f, KEPT, [0x28], live, o);
    SameFileReads(Toy(), torn, After(Toy(), torn, live, o), KEPT);
  }

  lemma KeptIsPacked()
    ensures KEPT in PackedHashes(Tree()) && Loose(KEPT) !in Tree() && ReadsAs(Toy(), Tree(), KEPT, Strings(KEPT))
  {
    hide ParseIndex, ReadBlob, PackBytes, CreatedIndex, PackName, Tree, WellFormed, Strings, Toy, AllIndexed, ReadsAs;
    TreeGood();
    TreeTidy();
    TreeFiles();
    HashesPresent(Tree(), PackName(Toy(), Both()));
    WellFormedReads(Toy(), Strings, Tree(), KEPT);
  }

  lemma NothingSpared(f: Files, live: set<Digest>, q: Name, o: Options)
    requires forall s :: Indexed(f, s) <==> s == q
    requires !(HashesOf(f, q) <= live) && forall r :: r !in PlanOf(f, live).packsToRewrite
    ensures !CopySpared(f, live, o, KEPT)
  {
    hide PlanOf, Indexed, HashesOf;
  }

  lemma SameFileReads(c: Codec, f: Files, f': Files, h: Digest)
    requires Loose(h) in f && SameAt(f, f', Loose(h))
    ensures forall d :: ReadsAs(c, f, h, d) <==> ReadsAs(c, f', h, d)
  {
    hide AllIndexed, Indexed, HashesOf, Decode;
  }
}

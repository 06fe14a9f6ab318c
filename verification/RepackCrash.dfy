/** Repacks that crash. */
module RepackCrash {
  import opened Bytes
  import opened Codecs
  import opened Damage
  import opened Disks
  import opened Errors
  import opened GcConverge
  import opened GcModel
  import opened GcPlanning
  import opened GcRewrite
  import opened GcSafety
  import opened Inventory
  import opened PackFormat
  import opened PackTheorems
  import opened RepackReads
  import opened Sorting
  import opened Store
  import opened StoreModel
  import opened StoreRefinement
  import opened StoreRuns
  import opened SweepFailure

  /** The name of the pack a repack writes. */
  ghost function RepackName(c: Codec, g: Contents, f: Files): Name {
    PackName(c, Objects(g, LooseList(f)))
  }

  ghost function RepackEffects(c: Codec, g: Contents, f: Files, failed: set<Digest>): seq<Step> {
    RepackSteps(c, Objects(g, LooseList(f)), LooseList(f), failed)
  }

  /** No index waits for its pack under that name. */
  ghost predicate NoStrayName(c: Codec, g: Contents, f: Files) {
    Idx(RepackName(c, g, f)) in f ==> Pack(RepackName(c, g, f)) in f
  }

  /** What a repack does to a truthful tree without aliases, if the ring cache is
      right about the loose blobs: it succeeds, and its effects are none or, in
      order, the pack of the true contents, its index, and the deletions of the
      loose blobs, of which some may fail. */
  lemma RepackRunEffects(cfg: Config, g: Contents, s: State, threshold: nat, r: Result<nat, CasError>, got: seq<Blob>,
                         steps: seq<Step>, s': State) returns (failed: set<Digest>)
    requires RepackRun(cfg, s, threshold, r, got, steps, s')
    requires LooseTruthful(cfg.c, g, s.files) && Unaliased(s.files) && TrueFor(g, s.blobCache, LooseHashes(s.files))
    ensures r.Ok? && s'.files == ApplyAll(s.files, steps)
    ensures steps == [] || (got == Objects(g, LooseList(s.files)) && steps == RepackEffects(cfg.c, g, s.files, failed))
  {
    hide LooseTruthful, GetsNext, CreateSteps, Deletions, Objects, IsListing, LooseList, Happened, RingReads, TrueFor;
    var f := s.files;
    var listed :| IsListing(f, listed) && RepackListed(cfg, s, listed, threshold, r, got, steps, s');
    ListsLoose(f, listed);
    LooseHashesExact(f);
    failed := {};
    if |listed| > threshold {
      var error: Option<CasError>, s1 :| GetsNext(cfg, s, listed, got, error, s1) && RepackWrites(cfg, s, listed, error, s1, r, got, steps, s');
      GetsLoose(cfg, g, s, listed, got, error, s1);
      ToPackTrue(g, s);
      var denied :| |denied| == |listed| && steps == CreateSteps(cfg.c, got) + Happened(ApplyAll(f, CreateSteps(cfg.c, got)), listed, denied);
      DeletionsOf(cfg.c, f, got, denied);
      failed := Denied(listed, denied);
    }
  }

  lemma LooseListExact(f: Files)
    ensures Elements(LooseList(f)) == LooseHashes(f)
  {
  }

  lemma LooseStillReads(c: Codec, g: Contents, f: Files, f': Files, h: Digest)
    requires WellFormed(c, g, f) && Loose(h) in f && SameAt(f, f', Loose(h))
    ensures ReadsAs(c, f', h, g(h))
  {
    assert GoodLoose(c, g, h, f[Loose(h)]);
  }

  /** A prefix of the deletions is the deletions of a prefix. */
  lemma {:induction false} DeletionsPrefix(hs: seq<Digest>, failed: set<Digest>, m: nat) returns (j: nat)
    requires m <= |Deletions(hs, failed)|
    ensures j <= |hs| && Deletions(hs[..j], failed) == Deletions(hs, failed)[..m]
  {
    if m == |Deletions(hs, failed)| {
      j := |hs|;
      assert hs[..j] == hs;
    } else {
      var n := |hs| - 1;
      assert hs == hs[..n] + [hs[n]];
      DeletionsAppend(hs[..n], hs[n], failed);
      j := DeletionsPrefix(hs[..n], failed, m);
      assert hs[..n][..j] == hs[..j];
    }
  }

  /* Whole steps */

  /** Writing the pack file alone. */
  lemma PackWritten(c: Codec, g: Contents, f: Files)
    requires Repackable(c, g, f) && NoStrayName(c, g, f)
    ensures var f' := f[Pack(RepackName(c, g, f)) := PackBytes(c, Objects(g, LooseList(f)))];
            WellFormed(c, g, f') && Present(f') == Present(f) && (AllIndexed(f) ==> AllIndexed(f'))
  {
    hide ParseIndex, ReadBlob, CreatedIndex, PackBytes, LooseList, WellFormed, Present, GoodPack, LooseHashes;
    var objects := Objects(g, LooseList(f));
    var q, pack := PackName(c, objects), PackBytes(c, objects);
    var f' := f[Pack(q) := pack];
    if Indexed(f, q) {
      SameNameSameIndex(c, g, f, q, CreatedIndex(c, objects));
      assert f' == f[Pack(q) := pack][Idx(q) := CreatedIndex(c, objects)];
      ApplyTwo(f, Write(Pack(q), pack), Write(Idx(q), CreatedIndex(c, objects)));
      PackedFacts(c, g, f);
    } else {
      SamePackIndex(f, f', q);
      UnreadableWrite(c, g, f, f', q);
      if AllIndexed(f) { assert !Paired(f, q); }
    }
  }

  lemma SamePackIndex(f: Files, f': Files, q: Name)
    requires Pack(q) in f || Idx(q) !in f
    requires SameAt(f, f', Idx(q))
    ensures Indexed(f', q) ==> Indexed(f, q)
  {
  }

  /** After each whole step, if no stray index bears the new name, the tree is
      truthful, all indexes load that did before, and the same digests are present. */
  lemma RepackPrefix(c: Codec, g: Contents, f: Files, failed: set<Digest>, k: nat)
    requires Repackable(c, g, f) && k <= |RepackEffects(c, g, f, failed)|
    requires k == 1 ==> NoStrayName(c, g, f)
    ensures var f' := ApplyAll(f, RepackEffects(c, g, f, failed)[..k]);
            WellFormed(c, g, f') && Present(f') == Present(f) && (AllIndexed(f) ==> AllIndexed(f'))
  {
    hide ParseIndex, ReadBlob, CreatedIndex, PackBytes, PackName, LooseList, WellFormed, Present, Deletions, AllIndexed;
    var objects, loose := Objects(g, LooseList(f)), LooseList(f);
    var w, steps := CreateSteps(c, objects), RepackEffects(c, g, f, failed);
    if k == 0 {
      assert steps[..k] == [];
    } else if k == 1 {
      assert steps[..k] == [w[0]];
      ApplyOne(f, w[0]);
      PackWritten(c, g, f);
    } else {
      ApplyPrefix(f, w, Deletions(loose, failed), k);
      assert w[..2] == w && Deletions(loose, failed)[..0] == [];
      var j := DeletionsPrefix(loose, failed, k - 2);
      LooseListExact(f);
      assert Elements(loose[..j]) <= LooseHashes(f);
      DeletionsHarmless(c, g, f, loose[..j], failed);
    }
  }

  lemma EffectsReadUnchanged(c: Codec, g: Contents, f: Files, failed: set<Digest>, k: nat, h: Digest, d: Bytes)
    requires Repackable(c, g, f) && AllIndexed(f) && NoStrayName(c, g, f)
    requires k <= |RepackEffects(c, g, f, failed)|
    ensures ReadsAs(c, ApplyAll(f, RepackEffects(c, g, f, failed)[..k]), h, d) <==> ReadsAs(c, f, h, d)
  {
    hide ParseIndex, ReadBlob, WellFormed, Present, ReadsAs, AllIndexed, RepackEffects, Repackable, NoStrayName;
    RepackPrefix(c, g, f, failed, k);
    assert WellFormed(c, g, f) by { RepackableTruthful(c, g, f); }
    SamePresentReads(c, g, f, ApplyAll(f, RepackEffects(c, g, f, failed)[..k]), h, d);
  }

  lemma RepackableTruthful(c: Codec, g: Contents, f: Files)
    requires Repackable(c, g, f)
    ensures WellFormed(c, g, f) && LooseTruthful(c, g, f)
  {
  }

  lemma EffectsKeepLoose(c: Codec, g: Contents, f: Files, failed: set<Digest>, k: nat, h: Digest)
    requires Repackable(c, g, f) && AllIndexed(f) && Loose(h) in f
    requires k <= |RepackEffects(c, g, f, failed)|
    ensures ReadsAs(c, ApplyAll(f, RepackEffects(c, g, f, failed)[..k]), h, g(h))
  {
    hide ParseIndex, ReadBlob, CreatedIndex, PackBytes, PackName, LooseList, WellFormed, Present, ReadsAs, AllIndexed, Deletions;
    var f' := ApplyAll(f, RepackEffects(c, g, f, failed)[..k]);
    if k == 1 {
      var w := CreateSteps(c, Objects(g, LooseList(f)));
      assert RepackEffects(c, g, f, failed)[..k] == [w[0]];
      ApplyOne(f, w[0]);
      LooseStillReads(c, g, f, f', h);
    } else {
      RepackPrefix(c, g, f, failed, k);
      PresentExact(f);
      WellFormedReads(c, g, f', h);
    }
  }

  /** The state in which a repack is safe: a truthful tree without aliases whose
      indexes all load, and a ring cache that is right about its loose blobs. */
  ghost predicate Steady(c: Codec, g: Contents, s: State) {
    Repackable(c, g, s.files) && AllIndexed(s.files) && TrueFor(g, s.blobCache, LooseHashes(s.files))
  }

  /** Repacking at every crash point, whichever deletions fail and whether or
      not the pack's name was already taken: if no stray index bears that name, a
      store with empty caches reads for every digest what it read before. */
  lemma RepackReadsUnchanged(cfg: Config, g: Contents, s: State, threshold: nat, r: Result<nat, CasError>, got: seq<Blob>,
                             steps: seq<Step>, s': State, k: nat, h: Digest, d: Bytes)
    requires Steady(cfg.c, g, s) && NoStrayName(cfg.c, g, s.files)
    requires RepackRun(cfg, s, threshold, r, got, steps, s') && k <= |steps|
    ensures ReadsAs(cfg.c, ApplyAll(s.files, steps[..k]), h, d) <==> ReadsAs(cfg.c, s.files, h, d)
  {
    hide LooseTruthful, RepackRun, WellFormed, Present, ReadsAs, AllIndexed, RepackEffects, NoStrayName, TrueFor, Objects;
    RepackableTruthful(cfg.c, g, s.files);
    var failed := RepackRunEffects(cfg, g, s, threshold, r, got, steps, s');
    if steps == [] {
      assert steps[..k] == [];
    } else {
      EffectsReadUnchanged(cfg.c, g, s.files, failed, k, h, d);
    }
  }

  /** Even with a stray index, every blob that was loose reads the same. */
  lemma RepackCrashSafe(cfg: Config, g: Contents, s: State, threshold: nat, r: Result<nat, CasError>, got: seq<Blob>,
                        steps: seq<Step>, s': State, k: nat, h: Digest)
    requires Steady(cfg.c, g, s) && Loose(h) in s.files
    requires RepackRun(cfg, s, threshold, r, got, steps, s') && k <= |steps|
    ensures ReadsAs(cfg.c, ApplyAll(s.files, steps[..k]), h, g(h))
  {
    hide LooseTruthful, RepackRun, WellFormed, Present, ReadsAs, AllIndexed, RepackEffects, TrueFor, Objects;
    RepackableTruthful(cfg.c, g, s.files);
    var failed := RepackRunEffects(cfg, g, s, threshold, r, got, steps, s');
    if steps == [] {
      assert steps[..k] == [];
      PresentExact(s.files);
      WellFormedReads(cfg.c, g, s.files, h);
    } else {
      EffectsKeepLoose(cfg.c, g, s.files, failed, k, h);
    }
  }

  /* Torn steps */

  /** A pack file torn in any way, even over an older one of the same name: what
      the old one held is what is still loose. */
  lemma TornPackReads(c: Codec, g: Contents, f: Files, half: Bytes, h: Digest, d: Bytes)
    requires Repackable(c, g, f) && AllIndexed(f) && NoStrayName(c, g, f)
    ensures ReadsAs(c, f[Pack(RepackName(c, g, f)) := half], h, d) <==> ReadsAs(c, f, h, d)
  {
    hide ParseIndex, ReadBlob, CreatedIndex, PackBytes, PackName, LooseList, Present, GoodPack, LooseHashes, WellFormed, Objects;
    var q := RepackName(c, g, f);
    var f' := f[Pack(q) := half];
    assert SameAt(f, f', Loose(h));
    if Indexed(f, q) {
      OldPackHoldsLoose(c, g, f);
      LooseHashesExact(f);
      forall s ensures Paired(f', s) == Paired(f, s) && Indexed(f', s) == Indexed(f, s) && HashesOf(f', s) == HashesOf(f, s) {
      }
    } else {
      assert Idx(q) !in f;
      UnreadableWrite(c, g, f, f', q);
      SamePresentReads(c, g, f, f', h, d);
    }
  }

  /** A pack already there under the name lists exactly the loose blobs. */
  lemma OldPackHoldsLoose(c: Codec, g: Contents, f: Files)
    requires Repackable(c, g, f) && Indexed(f, RepackName(c, g, f))
    ensures HashesOf(f, RepackName(c, g, f)) == LooseHashes(f)
  {
    hide ParseIndex, ReadBlob, CreatedIndex, PackBytes, LooseList, Present, GoodPack, LooseHashes, WellFormed;
    var objects := Objects(g, LooseList(f));
    SameNameSameIndex(c, g, f, PackName(c, objects), CreatedIndex(c, objects));
    LoosePackable(c, g, f);
    CreatedPackGood(c, g, LooseList(f));
    LooseListExact(f);
  }

  /** A torn index: exactly the loose blobs still read, until the index is
      written again. */
  lemma TornIndexReads(c: Codec, g: Contents, f: Files, n: nat, h: Digest, d: Bytes)
    requires Repackable(c, g, f) && AllIndexed(f)
    requires n < |CreatedIndex(c, Objects(g, LooseList(f)))|
    ensures var objects, q := Objects(g, LooseList(f)), RepackName(c, g, f);
            var f' := f[Pack(q) := PackBytes(c, objects)][Idx(q) := CreatedIndex(c, objects)[..n]];
            ReadsAs(c, f', h, d) <==> Loose(h) in f && ReadsAs(c, f, h, d)
  {
    hide ParseIndex, ReadBlob, PackBytes, PackName, LooseList, Present, GoodPack, LooseHashes, WellFormed, IndexBytes, ReadsAs, Objects;
    var objects, q := Objects(g, LooseList(f)), RepackName(c, g, f);
    var f' := f[Pack(q) := PackBytes(c, objects)][Idx(q) := CreatedIndex(c, objects)[..n]];
    LoosePackable(c, g, f);
    TornIndexRejected(EntriesOf(c, objects), n);
    assert Paired(f', q) && !Indexed(f', q);
    UnindexedReads(c, f, f', h, d);
  }

  /** While an index does not load only loose blobs read. */
  lemma UnindexedReads(c: Codec, f: Files, f': Files, h: Digest, d: Bytes)
    requires SameAt(f, f', Loose(h)) && !AllIndexed(f')
    ensures ReadsAs(c, f', h, d) <==> Loose(h) in f && ReadsAs(c, f, h, d)
  {
    hide ParseIndex, ReadBlob, AllIndexed, Indexed, HashesOf, Decode;
  }

  /* Sweeping after a crashed repack */

  /** The only name that a crashed repack can leave an orphan under is no
      replacement's: its index lists what is still loose. */
  lemma RepackNameIsFree(c: Codec, g: Contents, f: Files, f': Files, live: set<Digest>)
    requires Repackable(c, g, f) && Truthful(c, g, f', live) && LooseHashes(f) <= LooseHashes(f')
    requires forall p | Orphan(f', p) :: p.stem == RepackName(c, g, f)
    ensures NamesFree(c, g, f', live)
  {
    hide ParseIndex, ReadBlob, CreatedIndex, PackBytes, LooseList, Present, WellFormed, PlanOf, LooseHashes, HealthyIn;
    forall r | r in PlanOf(f', live).packsToRewrite ensures NewName(c, g, r) != RepackName(c, g, f) {
      PlanFacts(f', live);
      PlanReady(c, g, f', live);
      KeepsNothingLoose(f', live, r);
      NewPackGood(c, g, f', r);
      LoosePackable(c, g, f);
      CreatedPackGood(c, g, LooseList(f));
      LooseListExact(f);
      var a, b := CreatedIndex(c, Objects(g, r.keep)), CreatedIndex(c, Objects(g, LooseList(f)));
      if StemOf(c.hash(a)) == StemOf(c.hash(b)) {
        StemOfInjective(c.hash(a), c.hash(b));
      }
    }
  }

  lemma KeepsNothingLoose(f: Files, live: set<Digest>, r: Rewrite)
    requires r in PlanOf(f, live).packsToRewrite
    ensures r.keep != [] && r.keep[0] in Elements(r.keep) && r.keep[0] !in LooseHashes(f)
  {
    hide PlanOf, HashesOf, HealthyIn;
    PlanFacts(f, live);
    ListedHashesExact(f);
    assert r.keep[0] in Elements(r.keep);
  }

  lemma SweepAfterEffects(c: Codec, g: Contents, f: Files, failed: set<Digest>, k: nat, live: set<Digest>, o: Options)
    requires Repackable(c, g, f) && Tidy(f) && k <= |RepackEffects(c, g, f, failed)|
    ensures var f' := ApplyAll(f, RepackEffects(c, g, f, failed)[..k]);
            Truthful(c, g, f', live) ==> Harmless(c, g, f', live, o)
  {
    hide ParseIndex, ReadBlob, CreatedIndex, PackBytes, PackName, LooseList, WellFormed, Present, Truthful, Harmless, Deletions, Objects, PlanOf, Tidy;
    var objects, loose := Objects(g, LooseList(f)), LooseList(f);
    var w, steps := CreateSteps(c, objects), RepackEffects(c, g, f, failed);
    if k == 0 {
      assert steps[..k] == [];
      TidyHarmless(c, g, f, live, o);
    } else if k == 1 {
      assert steps[..k] == [w[0]];
      ApplyOne(f, w[0]);
      BareRepack(c, g, f, PackBytes(c, objects), live, o);
    } else {
      ApplyPrefix(f, w, Deletions(loose, failed), k);
      assert w[..2] == w && Deletions(loose, failed)[..0] == [];
      var j := DeletionsPrefix(loose, failed, k - 2);
      ApplyAllConcat(f, w, Deletions(loose[..j], failed));
      PackedTidy(c, f, objects, loose[..j], failed);
      TidyHarmless(c, g, ApplyAll(f, steps[..k]), live, o);
    }
  }

  lemma PackedTidy(c: Codec, f: Files, objects: seq<Blob>, hs: seq<Digest>, failed: set<Digest>)
    requires Tidy(f) && Unaliased(f)
    ensures var f' := ApplyAll(ApplyAll(f, CreateSteps(c, objects)), Deletions(hs, failed));
            Tidy(f') && Unaliased(f')
  {
    hide PackBytes, CreatedIndex, PackName, Deletions, Tidy;
    var q, f1 := PackName(c, objects), ApplyAll(f, CreateSteps(c, objects));
    ApplyTwo(f, Write(Pack(q), PackBytes(c, objects)), Write(Idx(q), CreatedIndex(c, objects)));
    CreateTidy(c, f, objects);
    DeletionsEffect(f1, hs, failed);
    SamePacksTidy(f1, ApplyAll(f1, Deletions(hs, failed)));
  }

  /** A torn write of a repack is that of its pack, or that of its index with the
      pack beside it. */
  lemma TornEffect(c: Codec, g: Contents, f: Files, failed: set<Digest>, k: nat, n: nat) returns (half: Bytes)
    requires k < |RepackEffects(c, g, f, failed)|
    requires var step := RepackEffects(c, g, f, failed)[k]; step.Write? && n < |step.data|
    ensures var steps, objects, q := RepackEffects(c, g, f, failed), Objects(g, LooseList(f)), RepackName(c, g, f);
            var torn := Torn(ApplyAll(f, steps[..k]), steps[k], n);
            || (k == 0 && torn == f[Pack(q) := half])
            || (k == 1 && torn == f[Pack(q) := PackBytes(c, objects)][Idx(q) := half])
  {
    hide PackBytes, CreatedIndex, PackName, LooseList, Objects, Deletions;
    var steps, w := RepackEffects(c, g, f, failed), CreateSteps(c, Objects(g, LooseList(f)));
    half := steps[k].data[..n];
    if k == 0 {
      assert steps[..k] == [];
    } else if k == 1 {
      assert steps[..k] == [w[0]];
      ApplyOne(f, w[0]);
    } else {
      EffectsRemove(c, g, f, failed, k);
    }
  }

  lemma EffectsRemove(c: Codec, g: Contents, f: Files, failed: set<Digest>, k: nat)
    requires 2 <= k < |RepackEffects(c, g, f, failed)|
    ensures RepackEffects(c, g, f, failed)[k].Remove?
  {
    hide PackBytes, CreatedIndex, PackName, LooseList, Objects, Deletions;
    DeletionsRemove(LooseList(f), failed, k - 2);
    assert RepackEffects(c, g, f, failed)[k] == Deletions(LooseList(f), failed)[k - 2];
  }

  lemma {:induction false} DeletionsRemove(hs: seq<Digest>, failed: set<Digest>, k: nat)
    requires k < |Deletions(hs, failed)|
    ensures Deletions(hs, failed)[k].Remove?
  {
    if k < |Deletions(hs[..|hs| - 1], failed)| {
      DeletionsRemove(hs[..|hs| - 1], failed, k);
    }
  }

  lemma SweepAfterTornEffect(c: Codec, g: Contents, f: Files, failed: set<Digest>, k: nat, n: nat, live: set<Digest>, o: Options)
    requires Repackable(c, g, f) && Tidy(f) && k < |RepackEffects(c, g, f, failed)|
    requires var step := RepackEffects(c, g, f, failed)[k]; step.Write? && n < |step.data|
    ensures var f' := Torn(ApplyAll(f, RepackEffects(c, g, f, failed)[..k]), RepackEffects(c, g, f, failed)[k], n);
            Truthful(c, g, f', live) ==> Harmless(c, g, f', live, o)
  {
    hide PackBytes, CreatedIndex, PackName, LooseList, WellFormed, Truthful, Harmless, Objects, Tidy, RepackEffects;
    var objects, q := Objects(g, LooseList(f)), RepackName(c, g, f);
    var half := TornEffect(c, g, f, failed, k, n);
    if k == 0 {
      BareRepack(c, g, f, half, live, o);
    } else {
      PairTidy(f, q, PackBytes(c, objects), half);
      TidyHarmless(c, g, f[Pack(q) := PackBytes(c, objects)][Idx(q) := half], live, o);
    }
  }

  lemma PairTidy(f: Files, q: Name, a: Bytes, b: Bytes)
    requires Tidy(f) && Unaliased(f)
    ensures var f' := f[Pack(q) := a][Idx(q) := b]; Tidy(f') && Unaliased(f')
  {
    PairAddsNoOrphan(f, q, a, b);
  }

  /** The sound tree behind a crash point of a repack: only a pack that was there
      under the name, and is torn while it is written again, is damaged. */
  ghost predicate Behind(c: Codec, g: Contents, e: Files, e': Files) {
    WellFormed(c, g, e) && Damaged(e, e') && ReadsTruthfully(c, g, e')
  }

  lemma BehindItself(c: Codec, g: Contents, e: Files)
    requires WellFormed(c, g, e)
    ensures Behind(c, g, e, e)
  {
    hide ParseIndex, ReadBlob;
    forall s | Paired(e, s) ensures TruthfulPack(c, g, e[Pack(s)], e[Idx(s)]) {
      if Indexed(e, s) { GoodIsTruthful(c, g, s, e[Pack(s)], e[Idx(s)]); }
    }
  }

  /** A pack that lost its end. */
  lemma BehindTornPack(c: Codec, g: Contents, e: Files, q: Name, n: nat)
    requires WellFormed(c, g, e) && Pack(q) in e && n <= |e[Pack(q)]|
    ensures Behind(c, g, e, e[Pack(q) := e[Pack(q)][..n]])
  {
    hide ParseIndex, ReadBlob, WellFormed;
    var e' := e[Pack(q) := e[Pack(q)][..n]];
    BehindItself(c, g, e);
    forall s | Paired(e', s) ensures TruthfulPack(c, g, e'[Pack(s)], e'[Idx(s)]) {
      assert TruthfulPack(c, g, e[Pack(s)], e[Idx(s)]);
      if s == q && ParseIndex(e[Idx(s)]).Ok? {
        forall h ensures ReadBlob(c, e'[Pack(s)], ParseIndex(e[Idx(s)]).value, h).Ok? ==>
                           ReadBlob(c, e'[Pack(s)], ParseIndex(e[Idx(s)]).value, h) == Ok(g(h))
        {
          TornPackNeverLies(c, e[Pack(q)], n, ParseIndex(e[Idx(s)]).value, h);
        }
      }
    }
  }

  /** Every crash point has a sound tree behind it, with the deletions going on. */
  lemma BehindCrash(c: Codec, g: Contents, f: Files, failed: set<Digest>, k: nat, torn: Option<nat>) returns (e: Files)
    requires Repackable(c, g, f) && NoStrayName(c, g, f) && k <= |RepackEffects(c, g, f, failed)|
    ensures Behind(c, g, e, ApplyAll(f, Cut(RepackEffects(c, g, f, failed), k, torn)))
    ensures var effects := RepackEffects(c, g, f, failed);
            e == if TearsAt(effects, k, torn) && k == 0 then ApplyAll(f, effects[..1]) else ApplyAll(f, Cut(effects, k, torn))
  {
    hide RepackEffects, WellFormed, Present, AllIndexed, Behind, PackBytes, CreatedIndex, PackName, Objects, LooseList, Cut;
    var effects, q := RepackEffects(c, g, f, failed), RepackName(c, g, f);
    CutTree(f, effects, k, torn);
    if TearsAt(effects, k, torn) {
      TornAtPair(c, g, f, failed, k);
      if k == 0 {
        e := ApplyAll(f, effects[..1]);
        RepackPrefix(c, g, f, failed, 1);
        FirstIsPack(c, g, f, failed);
        assert effects[..1] == [effects[0]] && effects[..0] == [];
        ApplyOne(f, effects[0]);
        BehindTornPack(c, g, e, q, torn.value);
        assert e[Pack(q) := e[Pack(q)][..torn.value]] == f[Pack(q) := effects[0].data[..torn.value]];
      } else {
        e := ApplyAll(f, Cut(effects, k, torn));
        TornIndexTruthful(c, g, f, failed, torn.value);
        BehindItself(c, g, e);
      }
    } else {
      e := ApplyAll(f, Cut(effects, k, torn));
      RepackPrefix(c, g, f, failed, k);
      BehindItself(c, g, e);
    }
  }

  lemma FirstIsPack(c: Codec, g: Contents, f: Files, failed: set<Digest>)
    ensures var effects := RepackEffects(c, g, f, failed);
            |effects| >= 2 && effects[0] == Write(Pack(RepackName(c, g, f)), PackBytes(c, Objects(g, LooseList(f))))
            && effects[1] == Write(Idx(RepackName(c, g, f)), CreatedIndex(c, Objects(g, LooseList(f))))
  {
  }

  lemma TornAtPair(c: Codec, g: Contents, f: Files, failed: set<Digest>, k: nat)
    requires k < |RepackEffects(c, g, f, failed)| && RepackEffects(c, g, f, failed)[k].Write?
    ensures k < 2
  {
    if k >= 2 { EffectsRemove(c, g, f, failed, k); }
  }

  lemma TornIndexTruthful(c: Codec, g: Contents, f: Files, failed: set<Digest>, n: nat)
    requires Repackable(c, g, f) && NoStrayName(c, g, f)
    requires TearsAt(RepackEffects(c, g, f, failed), 1, Some(n))
    ensures WellFormed(c, g, Torn(ApplyAll(f, RepackEffects(c, g, f, failed)[..1]), RepackEffects(c, g, f, failed)[1], n))
  {
    hide RepackEffects, WellFormed, Present, AllIndexed, PackBytes, PackName, LooseList, IndexBytes, Objects, ParseIndex, GoodPack;
    var effects, q, objects := RepackEffects(c, g, f, failed), RepackName(c, g, f), Objects(g, LooseList(f));
    FirstIsPack(c, g, f, failed);
    RepackPrefix(c, g, f, failed, 1);
    LoosePackable(c, g, f);
    TornIndexRejected(EntriesOf(c, objects), n);
    OneUnread(c, g, ApplyAll(f, effects[..1]), Idx(q), effects[1].data[..n]);
  }

  /** An index that does not load makes no untruth. */
  lemma OneUnread(c: Codec, g: Contents, f: Files, p: Path, raw: Bytes)
    requires WellFormed(c, g, f) && p.Idx? && ParseIndex(raw).Err?
    ensures WellFormed(c, g, f[p := raw])
  {
    hide ParseIndex, ReadBlob;
    var f' := f[p := raw];
    forall s | Indexed(f', s) ensures GoodPack(c, g, s, f'[Pack(s)], f'[Idx(s)]) {
      assert SamePack(f, f', s);
      assert GoodPack(c, g, s, f[Pack(s)], f[Idx(s)]);
    }
  }

  /** Whatever a store with empty caches reads for a live digest, it reads wherever
      a sweep stops, inside the write of an index at least if the blob is loose. */
  ghost predicate SweepKeepsReads(c: Codec, f: Files, live: set<Digest>, o: Options) {
    forall k: nat, torn, h, d |
      && k <= |SweepSteps(c, f, live, o)| && h in live && ReadsAs(c, f, h, d)
      && (TearsIndexAt(SweepSteps(c, f, live, o), k, torn) ==> Loose(h) in f) ::
      ReadsAs(c, ApplyAll(f, Cut(SweepSteps(c, f, live, o), k, torn)), h, d)
  }

  lemma BehindKeepsReads(c: Codec, g: Contents, e: Files, e': Files, live: set<Digest>, o: Options)
    requires Lawful(c) && Behind(c, g, e, e') && ReplacementsInPlay(c, g, PlanOf(e', live).packsToRewrite)
    requires Truthful(c, g, e, live) ==> Harmless(c, g, e, live, o)
    ensures SweepKeepsReads(c, e', live, o)
  {
    hide PlanOf, Harmless, SweepSteps, ReadsAs, WellFormed, Damaged, ReadsTruthfully, Cut, TearsIndexAt;
    DamagedPlan(e, e', live);
    forall k: nat, torn, h, d |
      && k <= |SweepSteps(c, e', live, o)| && h in live && ReadsAs(c, e', h, d)
      && (TearsIndexAt(SweepSteps(c, e', live, o), k, torn) ==> Loose(h) in e')
      ensures ReadsAs(c, ApplyAll(e', Cut(SweepSteps(c, e', live, o), k, torn)), h, d)
    {
      DamagedLiveReads(c, g, e, e', live, o, k, torn, h, d);
    }
  }

  /** So a sweep is safe after a repack that crashed after any of its steps, or
      inside a write of its pack or index, in a tree that had no orphan: bare packs
      of repacks are harmless where those of sweeps are not. This holds also if the
      repack was tearing a pack that was already there under its name. */
  lemma SweepAfterRepackCrash(cfg: Config, g: Contents, s: State, threshold: nat, r: Result<nat, CasError>, got: seq<Blob>,
                              steps: seq<Step>, s': State, k: nat, torn: Option<nat>, live: set<Digest>, o: Options)
    requires Steady(cfg.c, g, s) && Tidy(s.files)
    requires RepackRun(cfg, s, threshold, r, got, steps, s') && k <= |steps|
    ensures var f' := ApplyAll(s.files, Cut(steps, k, torn));
            && (Truthful(cfg.c, g, f', live) ==> Harmless(cfg.c, g, f', live, o))
            && (ReplacementsInPlay(cfg.c, g, PlanOf(f', live).packsToRewrite) ==> SweepKeepsReads(cfg.c, f', live, o))
  {
    hide LooseTruthful, RepackRun, WellFormed, Present, Tidy, AllIndexed, RepackEffects, TrueFor, Objects, Truthful, Harmless, SweepKeepsReads, PlanOf, Cut, Behind, NoStrayName;
    var c, f := cfg.c, s.files;
    RepackableTruthful(c, g, f);
    TidyUnstrayed(c, g, f);
    var failed := RepackRunEffects(cfg, g, s, threshold, r, got, steps, s');
    if steps == [] {
      NothingCut(f, steps, k, torn);
      TidyHarmless(c, g, f, live, o);
      BehindItself(c, g, f);
      if ReplacementsInPlay(c, g, PlanOf(f, live).packsToRewrite) { BehindKeepsReads(c, g, f, f, live, o); }
    } else {
      CrashHarmless(c, g, f, failed, k, torn, live, o);
      var e := BehindCrash(c, g, f, failed, k, torn);
      FirstIsPack(c, g, f, failed);
      SweepAfterEffects(c, g, f, failed, 1, live, o);
      var f' := ApplyAll(f, Cut(steps, k, torn));
      if ReplacementsInPlay(c, g, PlanOf(f', live).packsToRewrite) { BehindKeepsReads(c, g, e, f', live, o); }
    }
  }

  lemma TidyUnstrayed(c: Codec, g: Contents, f: Files)
    requires Tidy(f)
    ensures NoStrayName(c, g, f)
  {
    hide RepackName;
    assert !Orphan(f, Idx(RepackName(c, g, f)));
  }

  lemma CrashHarmless(c: Codec, g: Contents, f: Files, failed: set<Digest>, k: nat, torn: Option<nat>, live: set<Digest>, o: Options)
    requires Repackable(c, g, f) && Tidy(f) && k <= |RepackEffects(c, g, f, failed)|
    ensures var f' := ApplyAll(f, Cut(RepackEffects(c, g, f, failed), k, torn));
            Truthful(c, g, f', live) ==> Harmless(c, g, f', live, o)
  {
    hide WellFormed, Tidy, RepackEffects, Truthful, Harmless, Cut;
    CutTree(f, RepackEffects(c, g, f, failed), k, torn);
    SweepAfterEffects(c, g, f, failed, k, live, o);
    if TearsAt(RepackEffects(c, g, f, failed), k, torn) {
      SweepAfterTornEffect(c, g, f, failed, k, torn.value, live, o);
    }
  }

  lemma TidyHarmless(c: Codec, g: Contents, f: Files, live: set<Digest>, o: Options)
    requires Tidy(f) && Unaliased(f)
    ensures Harmless(c, g, f, live, o)
  {
    hide Tidy, Harmless, Unaliased, NamesFree;
    TidyNamesFree(c, g, f, live);
    UnaliasedHarmless(c, g, f, live, o);
  }

  lemma BareRepack(c: Codec, g: Contents, f: Files, half: Bytes, live: set<Digest>, o: Options)
    requires Repackable(c, g, f) && Tidy(f)
    ensures var f' := f[Pack(RepackName(c, g, f)) := half];
            Truthful(c, g, f', live) ==> Harmless(c, g, f', live, o)
  {
    hide PackName, Objects, LooseList, WellFormed, Truthful, Harmless, NamesFree, PlanOf, CreatedIndex;
    var f' := f[Pack(RepackName(c, g, f)) := half];
    forall p | Orphan(f', p) ensures p.stem == RepackName(c, g, f) {
      assert !Orphan(f, p);
    }
    LooseHashesExact(f);
    LooseHashesExact(f');
    UnaliasedHarmless(c, g, f', live, o);
    if Truthful(c, g, f', live) {
      RepackNameIsFree(c, g, f, f', live);
    }
  }
}

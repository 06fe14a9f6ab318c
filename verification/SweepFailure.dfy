/** Sweeps that fail part-way, on trees in which some records do not read. */
module SweepFailure {
  import opened Bytes
  import opened Codecs
  import opened Disks
  import opened GcModel
  import opened GcPlanning
  import opened GcRewrite
  import opened Inventory
  import opened PackFiles
  import opened PackFormat
  import opened PackTheorems
  import opened Sorting
  import opened StoreModel

  /** What reads from the packs is the content of its digest; it need not read. */
  ghost predicate TruthfulPack(c: Codec, g: Contents, pack: Bytes, idx: Bytes) {
    ParseIndex(idx).Ok? ==>
      forall h :: ReadBlob(c, pack, ParseIndex(idx).value, h).Ok? ==> ReadBlob(c, pack, ParseIndex(idx).value, h) == Ok(g(h))
  }

  ghost predicate ReadsTruthfully(c: Codec, g: Contents, f: Files) {
    forall s | Paired(f, s) :: TruthfulPack(c, g, f[Pack(s)], f[Idx(s)])
  }

  ghost predicate SoundKeep(r: Rewrite) {
    r.keep != [] && StrictlySorted(r.keep, DigestKey)
  }

  lemma {:induction false} ReadEachTruthful(c: Codec, g: Contents, f: Files, s: Name, keep: seq<Digest>)
    requires ReadsTruthfully(c, g, f) && Indexed(f, s)
    ensures var read := ReadEach(c, f[Pack(s)], ParseIndex(f[Idx(s)]).value, keep);
            read.Some? ==>
              && read.value == Objects(g, keep)
              && forall h | h in keep :: c.hash(g(h)) == h && |g(h)| <= MAX_DECOMPRESSED && h in HashesOf(f, s)
  {
    hide ParseIndex, ReadBlob;
    if keep != [] {
      var n := |keep| - 1;
      ReadEachTruthful(c, g, f, s, keep[..n]);
      assert TruthfulPack(c, g, f[Pack(s)], f[Idx(s)]);
      var r := ReadBlob(c, f[Pack(s)], ParseIndex(f[Idx(s)]).value, keep[n]);
      ReadBlobFacts(c, f[Pack(s)], ParseIndex(f[Idx(s)]).value, keep[n]);
      assert keep == keep[..n] + [keep[n]];
    }
  }

  lemma ReadBlobFacts(c: Codec, pack: Bytes, index: PackIndex, h: Digest)
    ensures ReadBlob(c, pack, index, h).Ok? ==>
              c.hash(ReadBlob(c, pack, index, h).value) == h && |ReadBlob(c, pack, index, h).value| <= MAX_DECOMPRESSED && h in Hashes(index)
  {
  }

  /** A replacement that reads is the one planned, and can be packed. */
  lemma KeepReads(c: Codec, g: Contents, f: Files, r: Rewrite)
    requires ReadsTruthfully(c, g, f) && SoundKeep(r) && ReadKeep(c, f, r).Some?
    ensures ReadKeep(c, f, r).value == Objects(g, r.keep) && Packable(c, Objects(g, r.keep))
  {
    hide ParseIndex, ReadBlob, HashesOf, ReadsTruthfully;
    ReadEachTruthful(c, g, f, r.pack, r.keep);
    var objects := Objects(g, r.keep);
    ElementsSize(r.keep);
    SubsetSize(Elements(r.keep), HashesOf(f, r.pack));
    HashesOfBelow(f, r.pack);
    StrictDistinct(r.keep, DigestKey);
    forall o | o in objects ensures |o.data| <= MAX_DECOMPRESSED && c.hash(o.data) == o.hash {
      var i :| 0 <= i < |objects| && objects[i] == o;
      assert r.keep[i] in r.keep;
    }
  }

  /** The written pair reads truthfully as well. */
  lemma PairTruthful(c: Codec, g: Contents, f: Files, r: Rewrite)
    requires Lawful(c) && ReadsTruthfully(c, g, f) && Packable(c, Objects(g, r.keep))
    requires InPlay(c, g, CreatedIndex(c, Objects(g, r.keep)))
    ensures ReadsTruthfully(c, g, ApplyAll(f, NewSteps(c, g, r)))
  {
    hide ParseIndex, ReadBlob, PackBytes, CreatedIndex, PackName, TruthfulPack, Objects;
    var objects, q, f1 := Objects(g, r.keep), NewName(c, g, r), ApplyAll(f, NewSteps(c, g, r));
    ApplyTwo(f, Write(Pack(q), PackBytes(c, objects)), Write(Idx(q), CreatedIndex(c, objects)));
    CreatedPackGood(c, g, r.keep);
    GoodIsTruthful(c, g, q, PackBytes(c, objects), CreatedIndex(c, objects));
    forall s | Paired(f1, s) ensures TruthfulPack(c, g, f1[Pack(s)], f1[Idx(s)]) {
      if s != q { assert Paired(f, s); }
    }
  }

  lemma GoodIsTruthful(c: Codec, g: Contents, s: Name, pack: Bytes, idx: Bytes)
    requires GoodPack(c, g, s, pack, idx)
    ensures TruthfulPack(c, g, pack, idx)
  {
    hide ParseIndex, ReadBlob;
    forall h | ReadBlob(c, pack, ParseIndex(idx).value, h).Ok?
      ensures ReadBlob(c, pack, ParseIndex(idx).value, h) == Ok(g(h))
    {
      ReadBlobFacts(c, pack, ParseIndex(idx).value, h);
    }
  }

  /** A write of one of the planned pairs. */
  ghost predicate PlannedWrite(c: Codec, g: Contents, rs: seq<Rewrite>, s: Step) {
    s.Write? && exists r :: r in rs && Packable(c, Objects(g, r.keep)) && (s.path == Pack(NewName(c, g, r)) || s.path == Idx(NewName(c, g, r)))
  }

  ghost predicate AllPlanned(c: Codec, g: Contents, rs: seq<Rewrite>, steps: seq<Step>) {
    forall i | 0 <= i < |steps| :: PlannedWrite(c, g, rs, steps[i])
  }

  /** Phase 1 writes planned pairs only, however far it gets. */
  lemma {:induction false} PhaseOnePlanned(c: Codec, g: Contents, f: Files, rs: seq<Rewrite>)
    requires Lawful(c) && ReadsTruthfully(c, g, f) && ReplacementsInPlay(c, g, rs)
    requires forall r | r in rs :: SoundKeep(r)
    ensures AllPlanned(c, g, rs, RewritePhase(c, f, rs).steps)
    decreases |rs|
  {
    hide ParseIndex, ReadBlob, PackBytes, CreatedIndex, NewName, ReadKeep, ReadsTruthfully, Objects, Packable, SoundKeep, PlannedWrite;
    if rs != [] && ReadKeep(c, f, rs[0]).Some? {
      var r, w := rs[0], NewSteps(c, g, rs[0]);
      assert r in rs;
      KeepReads(c, g, f, r);
      PairTruthful(c, g, f, r);
      PhaseOnePlanned(c, g, ApplyAll(f, w), rs[1..]);
      NewPairPlanned(c, g, rs);
      PlannedWidens(c, g, rs, RewritePhase(c, ApplyAll(f, w), rs[1..]).steps);
    }
  }

  lemma NewPairPlanned(c: Codec, g: Contents, rs: seq<Rewrite>)
    requires rs != [] && Packable(c, Objects(g, rs[0].keep))
    ensures |NewSteps(c, g, rs[0])| == 2 && AllPlanned(c, g, rs, NewSteps(c, g, rs[0]))
  {
    hide PackBytes, CreatedIndex, Objects, Packable, NewName, NewSteps;
    NewStepsShape(c, g, rs[0]);
    assert rs[0] in rs;
  }

  lemma PlannedWidens(c: Codec, g: Contents, rs: seq<Rewrite>, steps: seq<Step>)
    requires rs != [] && AllPlanned(c, g, rs[1..], steps)
    ensures AllPlanned(c, g, rs, steps)
  {
    hide Packable, NewName;
    forall i | 0 <= i < |steps| ensures PlannedWrite(c, g, rs, steps[i]) {
      assert PlannedWrite(c, g, rs[1..], steps[i]);
      assert forall r | r in rs[1..] :: r in rs;
    }
  }

  /** Pairs with disjoint contents have different names. */
  lemma PlannedNamesDiffer(c: Codec, g: Contents, r: Rewrite, q: Rewrite)
    requires Lawful(c) && r.keep != [] && Elements(r.keep) !! Elements(q.keep)
    requires Packable(c, Objects(g, r.keep)) && Packable(c, Objects(g, q.keep))
    requires InPlay(c, g, CreatedIndex(c, Objects(g, r.keep))) && InPlay(c, g, CreatedIndex(c, Objects(g, q.keep)))
    ensures NewName(c, g, r) != NewName(c, g, q)
  {
    hide ParseIndex, ReadBlob, PackBytes, CreatedIndex;
    CreatedPackGood(c, g, r.keep);
    CreatedPackGood(c, g, q.keep);
    assert r.keep[0] in Elements(r.keep);
    if NewName(c, g, r) == NewName(c, g, q) {
      StemOfInjective(c.hash(CreatedIndex(c, Objects(g, r.keep))), c.hash(CreatedIndex(c, Objects(g, q.keep))));
    }
  }

  /** Writes elsewhere leave a file as it is, and writes remove none. */
  lemma {:induction false} WritesElsewhere(f: Files, steps: seq<Step>, p: Path)
    requires (forall i | 0 <= i < |steps| :: steps[i].Write?) && p in f
    ensures p in ApplyAll(f, steps)
    ensures (forall i | 0 <= i < |steps| :: steps[i].path != p) ==> ApplyAll(f, steps)[p] == f[p]
    decreases |steps|
  {
    if steps != [] {
      WritesElsewhere(Apply(f, steps[0]), steps[1..], p);
    }
  }

  /** A first replacement that reads is there afterwards, whatever follows. */
  lemma FirstPairStays(c: Codec, g: Contents, f: Files, rs: seq<Rewrite>)
    requires Lawful(c) && ReadsTruthfully(c, g, f) && ReplacementsInPlay(c, g, rs) && PairwiseDisjoint(rs)
    requires forall r | r in rs :: SoundKeep(r)
    requires rs != [] && ReadKeep(c, f, rs[0]).Some?
    ensures var f', q := ApplyAll(f, RewritePhase(c, f, rs).steps), NewName(c, g, rs[0]);
            Indexed(f', q) && HashesOf(f', q) == Elements(rs[0].keep)
  {
    hide ParseIndex, ReadBlob, PackBytes, CreatedIndex, NewName, ReadKeep, ReadsTruthfully, Objects, Packable;
    var r, w, q := rs[0], NewSteps(c, g, rs[0]), NewName(c, g, rs[0]);
    var f1 := ApplyAll(f, w);
    var rest := RewritePhase(c, f1, rs[1..]).steps;
    assert r in rs;
    KeepReads(c, g, f, r);
    PairTruthful(c, g, f, r);
    PhaseOnePlanned(c, g, f1, rs[1..]);
    NewStepsShape(c, g, r);
    ApplyTwo(f, w[0], w[1]);
    ApplyAllConcat(f, w, rest);
    FirstSteps(c, g, f, rs);
    OtherPlannedPaths(c, g, rs, rest);
    WritesElsewhere(f1, rest, Pack(q));
    WritesElsewhere(f1, rest, Idx(q));
    CreatedPackGood(c, g, r.keep);
  }

  lemma FirstSteps(c: Codec, g: Contents, f: Files, rs: seq<Rewrite>)
    requires rs != [] && ReadKeep(c, f, rs[0]) == Some(Objects(g, rs[0].keep)) && Objects(g, rs[0].keep) != []
    ensures RewritePhase(c, f, rs).steps == NewSteps(c, g, rs[0]) + RewritePhase(c, ApplyAll(f, NewSteps(c, g, rs[0])), rs[1..]).steps
  {
    hide ReadKeep, Objects, CreateSteps;
  }

  lemma OtherPlannedPaths(c: Codec, g: Contents, rs: seq<Rewrite>, steps: seq<Step>)
    requires Lawful(c) && rs != [] && ReplacementsInPlay(c, g, rs) && PairwiseDisjoint(rs)
    requires rs[0].keep != [] && Packable(c, Objects(g, rs[0].keep)) && AllPlanned(c, g, rs[1..], steps)
    ensures forall i | 0 <= i < |steps| :: steps[i].Write? && steps[i].path != Idx(NewName(c, g, rs[0])) && steps[i].path != Pack(NewName(c, g, rs[0]))
  {
    hide CreatedIndex, NewName, Objects, Packable;
    forall i | 0 <= i < |steps|
      ensures steps[i].Write? && steps[i].path != Idx(NewName(c, g, rs[0])) && steps[i].path != Pack(NewName(c, g, rs[0]))
    {
      assert PlannedWrite(c, g, rs[1..], steps[i]);
      var r :| r in rs[1..] && Packable(c, Objects(g, r.keep)) && (steps[i].path == Pack(NewName(c, g, r)) || steps[i].path == Idx(NewName(c, g, r)));
      var j :| 0 <= j < |rs[1..]| && rs[1..][j] == r;
      assert r == rs[j + 1] && rs[0] in rs && r in rs;
      PlannedNamesDiffer(c, g, rs[0], r);
    }
  }

  /** No pack held the objects of a replacement together before. */
  lemma ReplacementIsNews(f: Files, f': Files, live: set<Digest>, r: Rewrite, q: Name)
    requires r in PlanOf(f, live).packsToRewrite
    requires Indexed(f', q) && HashesOf(f', q) == Elements(r.keep)
    ensures CacheOf(f') != CacheOf(f)
  {
    hide ParseIndex, PlanOf, CacheOf;
    PlanFacts(f, live);
    CacheOfExact(f);
    CacheOfExact(f');
    assert r.keep[0] in Elements(r.keep) && r.keep[0] !in HealthyIn(f, live);
    HealthyInExact(f, live, PackStates(f, Listing(f)));
    assert !(Healthy(f, live, q) && r.keep[0] in HashesOf(f, q));
  }

  /** Nothing is written: planning fails, or the first replacement does not read. */
  ghost predicate FailsAtOnce(c: Codec, f: Files, live: set<Digest>) {
    || PlanFails(f, live)
    || (PlanOf(f, live).packsToRewrite != [] && ReadKeep(c, f, PlanOf(f, live).packsToRewrite[0]).None?)
  }

  /** How a sweep fails: in its plan, or in phase 1. */
  lemma FailedOutcome(c: Codec, f: Files, live: set<Digest>, o: Options)
    requires !SweepOutcome(c, f, live, o).ok
    ensures var rs, steps := PlanOf(f, live).packsToRewrite, SweepOutcome(c, f, live, o).steps;
            && (FailsAtOnce(c, f, live) ==> steps == [])
            && (!FailsAtOnce(c, f, live) ==> rs != [] && ReadKeep(c, f, rs[0]).Some? && steps == RewritePhase(c, f, rs).steps)
  {
    hide CreateSteps, ReadKeep, PlanOf, PlanFails, EvictPhase;
  }

  /** A sweep that fails part-way returns before it drops the pack cache. A cache
      that was what is on disk then still is if and only if the sweep failed at
      once. The tree may be damaged: only what does read must be truthful. */
  lemma FailedSweepGoesStale(cfg: Config, g: Contents, s: State, live: set<Digest>, o: Options, s': State)
    requires Lawful(cfg.c) && ReadsTruthfully(cfg.c, g, s.files)
    requires ReplacementsInPlay(cfg.c, g, PlanOf(s.files, live).packsToRewrite)
    requires Next(cfg, s, Sweep(live, o), Swept(false), s')
    requires s.packCache == Some(CacheOf(s.files))
    ensures s'.packCache == Some(CacheOf(s'.files)) <==> FailsAtOnce(cfg.c, s.files, live)
  {
    hide ParseIndex, ReadBlob, RewritePhase, ReadKeep, PlanOf, CacheOf, FailsAtOnce, ReadsTruthfully, SweepOutcome, ReplacementsInPlay, HashesOf, Indexed, NewName, Partial, HealthyIn, ListedHashes, Kept;
    var f, rs := s.files, PlanOf(s.files, live).packsToRewrite;
    PlanFacts(f, live);
    FailedOutcome(cfg.c, f, live, o);
    if !FailsAtOnce(cfg.c, f, live) {
      FirstPairStays(cfg.c, g, f, rs);
      assert rs[0] in rs;
      ReplacementIsNews(f, s'.files, live, rs[0], NewName(cfg.c, g, rs[0]));
    }
  }
}

/** What plans and reports of a sweep say, in terms of the trees. */
module GcReport {
  import opened Bytes
  import opened Codecs
  import opened Disks
  import opened GcBytes
  import opened GcEvict
  import opened GcFixpoint
  import opened GcModel
  import opened GcOutcome
  import opened GcPlanning
  import opened GcReplan
  import opened GcRewrite
  import opened GcSafety
  import opened GcTrash
  import opened Inventory
  import opened PackFormat
  import opened Sorting
  import opened StoreModel
  import opened StoreRefinement

  /* The census */

  /** In any tree every scanned object is counted as live or as garbage, and not as
      both. */
  lemma CensusAdds(f: Files, live: set<Digest>)
    ensures var n := CensusOf(f, live); n.scanned == n.live + n.garbage && n.live <= |live|
  {
    hide ListedHashes, PackedHashes;
    var all := Scanned(f);
    assert all == (all * live) + (all - live);
    SubsetSize(all * live, live);
  }

  /** In a good state the census is that of the map. */
  lemma CensusOfMap(c: Codec, g: Contents, s: State, live: set<Digest>)
    requires Good(c, g, s)
    ensures var keys := Blobs(Abstract(g, s.files)).Keys;
            CensusOf(s.files, live) == Census(|keys|, |keys * live|, |keys - live|)
  {
    hide WellFormed, AllIndexed, WithinCap, PackedHashes, RingTruthful, Coherent, Blobs, Abstract;
    AbstractBlobs(g, s.files);
    assert ListedHashes(s.files) == LooseHashes(s.files) by {
      assert forall p | p in s.files && (p.Loose? || p.Alias?) :: p.Loose?;
    }
  }

  /** A complete rewriting sweep takes as many digests off the map as its plan
      counts as garbage. */
  lemma SweepTakesGarbage(cfg: Config, g: Contents, s: State, live: set<Digest>, o: Options, reply: Reply, s': State)
    requires Lawful(cfg.c) && Good(cfg.c, g, s) && Admissible(cfg, g, s, Sweep(live, o))
    requires Next(cfg, s, Sweep(live, o), reply, s') && !o.mode.DryRun? && o.rewritePartialPacks
    ensures |Blobs(Abstract(g, s.files)).Keys| == |Blobs(Abstract(g, s'.files)).Keys| + CensusOf(s.files, live).garbage
  {
    hide Good, Next, Abstract, Blobs, CensusOf, Admissible, Lawful;
    NextRefines(cfg, g, s, Sweep(live, o), reply, s');
    CensusOfMap(cfg.c, g, s, live);
    SplitSize(Blobs(Abstract(g, s.files)).Keys, live);
  }

  lemma SplitSize(keys: set<Digest>, live: set<Digest>)
    ensures |keys| == |keys * live| + |keys - live|
  {
    assert keys == (keys * live) + (keys - live);
  }

  /* The counters */

  lemma DistinctSize<T>(xs: seq<T>, s: set<T>)
    requires Distinct(xs) && forall x :: x in xs <==> x in s
    ensures |xs| == |s|
  {
    DistinctElements(xs);
    assert Elements(xs) == s;
  }

  lemma {:induction false} DistinctElements<T>(xs: seq<T>)
    requires Distinct(xs)
    ensures |Elements(xs)| == |xs|
  {
    if xs != [] {
      var n := |xs| - 1;
      DistinctElements(xs[..n]);
      assert xs == xs[..n] + [xs[n]];
      assert Elements(xs) == Elements(xs[..n]) + {xs[n]};
    }
  }

  ghost function PartialStems(f: Files, live: set<Digest>): set<Name> {
    set s | s in PackStems(f) && Partial(f, live, s)
  }

  /** What the report of a complete sweep counts as removed loose files is their
      number, and with rewriting on what it counts as removed packs is the number of
      packs that held garbage, none of which is left. */
  lemma RemovedCounts(c: Codec, g: Contents, f: Files, live: set<Digest>, o: Options)
    requires Sweepable(c, g, f, live) && !o.mode.DryRun?
    ensures |PlanOf(f, live).looseGarbage| == |LooseHashes(f) - LooseHashes(After(c, f, live, o))|
    ensures o.rewritePartialPacks ==> |Removals(PlanOf(f, live), true)| == |PartialStems(f, live)|
    ensures !o.rewritePartialPacks ==>
              |Removals(PlanOf(f, live), false)| == |set s | s in PartialStems(f, live) && !Indexed(After(c, f, live, o), s)|
  {
    hide ParseIndex, PlanOf, After, Sweepable, LooseHashes, Partial, Indexed, HashesOf, PartialStems;
    var plan, f' := PlanOf(f, live), After(c, f, live, o);
    LooseCount(c, g, f, live, o);
    PlanFacts(f, live);
    PartialStemsExact(f, live);
    RemovalsPartial(f, live);
    if o.rewritePartialPacks {
      DistinctSize(Removals(plan, true), PartialStems(f, live));
    } else {
      var gone := set s | s in PartialStems(f, live) && !Indexed(f', s);
      assert Removals(plan, false) == plan.packsToRemove;
      forall s ensures s in plan.packsToRemove <==> s in gone {
        SurvivingPacks(c, g, f, live, o, s);
        PartialReads(f, live, s);
      }
      DistinctFront(plan.packsToRemove, RewrittenPacks(plan.packsToRewrite));
      DistinctSize(plan.packsToRemove, gone);
    }
  }

  lemma PartialReads(f: Files, live: set<Digest>, s: Name)
    ensures Partial(f, live, s) ==> Indexed(f, s)
  {
  }

  lemma DistinctFront<T>(a: seq<T>, b: seq<T>)
    requires Distinct(a + b)
    ensures Distinct(a)
  {
    forall i, j | 0 <= i < j < |a| ensures a[i] != a[j] {
      assert (a + b)[i] == a[i] && (a + b)[j] == a[j];
    }
  }

  lemma PartialStemsExact(f: Files, live: set<Digest>)
    ensures forall s :: s in PartialStems(f, live) <==> Partial(f, live, s)
  {
    hide ParseIndex;
    PackStemsExact(f);
  }

  lemma RemovalsPartial(f: Files, live: set<Digest>)
    ensures Distinct(Removals(PlanOf(f, live), true))
    ensures forall s :: s in Removals(PlanOf(f, live), true) <==> Partial(f, live, s)
  {
    hide PlanOf, Partial;
    PlanFacts(f, live);
    forall s | s in Removals(PlanOf(f, live), true) ensures Partial(f, live, s) {
      RemovalIsPartial(f, live, true, s);
    }
  }

  lemma LooseCount(c: Codec, g: Contents, f: Files, live: set<Digest>, o: Options)
    requires Sweepable(c, g, f, live) && !o.mode.DryRun?
    ensures |PlanOf(f, live).looseGarbage| == |LooseHashes(f) - LooseHashes(After(c, f, live, o))|
  {
    hide ParseIndex, After, LooseHashes, ListedHashes, DecisionOf, SortedDigests, Truthful;
    AfterTiers(c, g, f, live, o);
    var hs, gone := LooseGarbage(f, live), LooseHashes(f) - LooseHashes(After(c, f, live, o));
    ListedHashesExact(f);
    GarbageDistinct(f, live);
    DistinctSize(hs, gone);
  }

  lemma GarbageDistinct(f: Files, live: set<Digest>)
    ensures Distinct(LooseGarbage(f, live)) && forall h :: h in LooseGarbage(f, live) <==> h in ListedHashes(f) - live
  {
    hide ListedHashes;
    FilterStrict(SortedDigests(ListedHashes(f)), ListedHashes(f) - live, DigestKey);
    StrictDistinct(LooseGarbage(f, live), DigestKey);
  }

  /* Bytes of the plan */

  ghost function DeadLoose(f: Files, live: set<Digest>): set<Path> {
    set p | p in f && p.Loose? && p.h !in live
  }

  ghost function RemovedFiles(f: Files, live: set<Digest>): set<Path> {
    set p | p in f && (p.Pack? || p.Idx?) && p.stem in PlanOf(f, live).packsToRemove
  }

  /** The byte counts of a plan are what the tree would lose: with the loose files of
      digests that are not live, and with the packs to be removed as well. */
  lemma PlanBytesExactly(f: Files, live: set<Digest>)
    requires !PlanFails(f, live)
    ensures PlanOf(f, live).looseGarbageBytes == Total(f) - Total(f - DeadLoose(f, live))
    ensures PlanOf(f, live).bytesReclaimable == Total(f) - Total(f - DeadLoose(f, live) - RemovedFiles(f, live))
  {
    hide Total, SumSizes, LooseGarbage, DecisionOf, PairPaths, LoosePaths;
    var hs, stems := LooseGarbage(f, live), PlanOf(f, live).packsToRemove;
    var loose, pairs := LoosePaths(hs), PairPaths(stems);
    GarbageFiles(f, live);
    PairFiles(f, live);
    TakenOff(f, loose, DeadLoose(f, live));
    LooseApartPairs(loose, pairs);
    TakenOff(f, loose + pairs, DeadLoose(f, live) + RemovedFiles(f, live));
    SumSizesConcat(f, loose, pairs);
    assert f - (DeadLoose(f, live) + RemovedFiles(f, live)) == f - DeadLoose(f, live) - RemovedFiles(f, live);
  }

  /** Deleting distinct files takes their sizes off the total. */
  lemma {:induction false} TakenOff(f: Files, ps: seq<Path>, gone: set<Path>)
    requires InObjects(ps) && Distinct(ps) && forall p | p in f :: p in ps <==> p in gone
    ensures SumSizes(f, ps) == Total(f) - Total(f - gone)
  {
    hide Total, SumSizes, EvictPhase;
    var f' := ApplyAll(f, EvictPhase(f, DeleteMode, ps));
    EvictTotal(f, DeleteMode, ps);
    NoTrashIn(ps);
    EvictAll(f, DeleteMode, ps);
    forall p ensures p in f'.Keys <==> p in (f - gone).Keys {
      if p.Trash? { assert SameAt(f, f', Trash(p.inner)); } else if p !in ps { assert SameAt(f, f', p); }
    }
    assert f'.Keys == (f - gone).Keys;
    forall p | p in f' ensures f'[p] == (f - gone)[p] {
      if p.Trash? { assert SameAt(f, f', Trash(p.inner)); } else { assert SameAt(f, f', p); }
    }
    assert f' == f - gone;
  }

  lemma NoTrashIn(ps: seq<Path>)
    requires InObjects(ps)
    ensures NoTrash(ps) && forall p | p in ps :: !p.Trash?
  {
  }

  lemma GarbageFiles(f: Files, live: set<Digest>)
    requires !PlanFails(f, live)
    ensures var ps := LoosePaths(LooseGarbage(f, live));
            InObjects(ps) && Distinct(ps) && (forall p | p in ps :: p.Loose?) && forall p | p in f :: p in ps <==> p in DeadLoose(f, live)
  {
    hide LooseGarbage, ListedHashes;
    var hs := LooseGarbage(f, live);
    var ps := LoosePaths(hs);
    GarbageDistinct(f, live);
    ListedHashesExact(f);
    LooseHashesExact(f);
    forall p | p in f && p in DeadLoose(f, live) ensures p in ps {
      assert Names(p, p.h) && p.h in hs;
      var i :| 0 <= i < |hs| && hs[i] == p.h;
      assert ps[i] == p;
    }
    forall i | 0 <= i < |ps| ensures ps[i].Loose? && ps[i].h !in live {
      assert hs[i] in hs;
    }
  }

  lemma PairFiles(f: Files, live: set<Digest>)
    ensures var ps := PairPaths(PlanOf(f, live).packsToRemove);
            InObjects(ps) && Distinct(ps) && (forall p | p in ps :: p.Pack? || p.Idx?) && forall p | p in f :: p in ps <==> p in RemovedFiles(f, live)
  {
    hide PlanOf, PairPaths;
    var stems := PlanOf(f, live).packsToRemove;
    PlanFacts(f, live);
    DistinctFront(stems, RewrittenPacks(PlanOf(f, live).packsToRewrite));
    PairPathsDistinct(stems);
    forall p ensures p in PairPaths(stems) <==> (p.Pack? || p.Idx?) && p.stem in stems {
      PairPathsExact(stems, p);
    }
  }

  lemma LooseApartPairs(a: seq<Path>, b: seq<Path>)
    requires Distinct(a) && Distinct(b) && InObjects(a) && InObjects(b)
    requires (forall p | p in a :: p.Loose?) && forall p | p in b :: p.Pack? || p.Idx?
    ensures Distinct(a + b) && InObjects(a + b)
  {
    forall i, j | 0 <= i < j < |a + b| ensures (a + b)[i] != (a + b)[j] {
      if i < |a| <= j { assert a[i] in a && b[j - |a|] in b; }
    }
  }

  /* The order of rewrites */

  /** In a list of packs without repeated names, the coverage rule keeps an object
      in the first pack with garbage that has it. */
  lemma {:induction false} DecideKeepsFirst(packs: seq<PackState>, live: set<Digest>, covered: set<Digest>, r: Rewrite, p: PackState, h: Digest)
    requires AllSorted(packs) && StrictlySorted(packs, PackKey)
    requires r in Decide(packs, live, covered).rewrite && h in r.keep
    requires p in packs && HasGarbage(p, live) && h in p.hashes && p.stem != r.pack
    ensures Less(StemKey(r.pack), StemKey(p.stem))
    decreases |packs|
  {
    hide Less, StemKey;
    var first, more := packs[0], CoveredNext(packs[0], live, covered);
    var keep, rest := Filter(first.hashes, live - covered), Decide(packs[1..], live, more);
    DecideStep(packs, live, covered);
    TailSorted(packs);
    DecideSound(packs[1..], live, more);
    DecideSound(packs, live, covered);
    assert SoundRewrite(packs, live, covered, r) && h in Elements(r.keep);
    if r in rest.rewrite {
      assert SoundRewrite(packs[1..], live, more, r);
      KeptAtOnce(first, live, covered, h);
      DecideKeepsFirst(packs[1..], live, more, r, p, h);
    } else {
      assert r == Rewrite(first.stem, keep);
      var j :| 0 <= j < |packs| && packs[j] == p;
      assert Less(PackKey(packs[0]), PackKey(packs[j]));
    }
  }

  lemma KeptAtOnce(p: PackState, live: set<Digest>, covered: set<Digest>, h: Digest)
    ensures HasGarbage(p, live) && h in p.hashes && h in live ==> h in CoveredNext(p, live, covered)
  {
    if h in p.hashes && h in live && h !in covered { assert h in Filter(p.hashes, live - covered); }
  }

  lemma TailSorted(packs: seq<PackState>)
    requires packs != [] && AllSorted(packs) && StrictlySorted(packs, PackKey)
    ensures AllSorted(packs[1..]) && StrictlySorted(packs[1..], PackKey)
    ensures forall p | p in packs :: p == packs[0] || p in packs[1..]
  {
    hide Less, StemKey;
    assert packs == [packs[0]] + packs[1..];
    assert forall i | 0 <= i < |packs[1..]| :: packs[1..][i] == packs[i + 1];
    forall p | p in packs[1..] ensures p in packs {
    }
  }

  /** An object that several packs with garbage hold is copied from the first of them
      in the order of file names. */
  lemma KeptFromFirst(f: Files, live: set<Digest>, r: Rewrite, s: Name, h: Digest)
    requires r in PlanOf(f, live).packsToRewrite && h in r.keep
    requires Partial(f, live, s) && h in HashesOf(f, s) && s != r.pack
    ensures Precedes(StemKey(r.pack), StemKey(s))
  {
    hide ParseIndex, Decide, SortedDigests, HashesOf, Indexed, Listing;
    var packs := PackStates(f, Listing(f));
    StrictDistinct(Listing(f), StemKey);
    PackStatesExact(f, Listing(f));
    PackStatesSorted(f, Listing(f));
    IndexedListed(f, s);
    var p := PackState(s, SortedDigests(HashesOf(f, s)));
    assert p in packs && Elements(p.hashes) == HashesOf(f, s);
    DecideKeepsFirst(packs, live, ListedHashes(f) * live + HealthyHashes(packs, live), r, p, h);
    LessExactly(StemKey(r.pack), StemKey(s));
  }

  /** Packs are decided on in order. */
  lemma {:induction false} DecideInOrder(packs: seq<PackState>, live: set<Digest>, covered: set<Digest>)
    requires AllSorted(packs) && StrictlySorted(packs, PackKey)
    ensures var d := Decide(packs, live, covered);
            StrictlySorted(d.remove, StemKey) && StrictlySorted(RewrittenPacks(d.rewrite), StemKey)
    decreases |packs|
  {
    hide Less, StemKey;
    if packs != [] {
      var p, more := packs[0], CoveredNext(packs[0], live, covered);
      var rest := Decide(packs[1..], live, more);
      DecideStep(packs, live, covered);
      TailSorted(packs);
      DecideInOrder(packs[1..], live, more);
      DecideSound(packs[1..], live, more);
      assert forall i | 0 <= i < |packs[1..]| :: packs[1..][i] == packs[i + 1];
      forall s | s in rest.remove || s in RewrittenPacks(rest.rewrite) ensures Less(StemKey(p.stem), StemKey(s)) {
        DecidedLater(packs, live, more, s);
      }
      RewrittenPacksCons(Rewrite(p.stem, Filter(p.hashes, live - covered)), rest.rewrite);
      ConsSorted(p.stem, rest.remove);
      ConsSorted(p.stem, RewrittenPacks(rest.rewrite));
    }
  }

  lemma DecidedLater(packs: seq<PackState>, live: set<Digest>, more: set<Digest>, s: Name)
    requires packs != [] && AllSorted(packs[1..]) && StrictlySorted(packs, PackKey)
    requires var rest := Decide(packs[1..], live, more); s in rest.remove || s in RewrittenPacks(rest.rewrite)
    ensures Less(StemKey(packs[0].stem), StemKey(s))
  {
    hide Less, StemKey, Decide;
    var rest := Decide(packs[1..], live, more);
    DecideSound(packs[1..], live, more);
    if s !in rest.remove {
      var i :| 0 <= i < |rest.rewrite| && rest.rewrite[i].pack == s;
      assert SoundRewrite(packs[1..], live, more, rest.rewrite[i]);
    }
    var q :| q in packs[1..] && q.stem == s;
    var j :| 0 <= j < |packs[1..]| && packs[1..][j] == q;
    assert Less(PackKey(packs[0]), PackKey(packs[j + 1]));
  }

  lemma ConsSorted(s: Name, rest: seq<Name>)
    requires StrictlySorted(rest, StemKey) && forall t | t in rest :: Less(StemKey(s), StemKey(t))
    ensures StrictlySorted([s] + rest, StemKey)
  {
    hide Less, StemKey;
    var all := [s] + rest;
    forall i, j | 0 <= i < j < |all| ensures Less(StemKey(all[i]), StemKey(all[j])) {
      assert all[j] == rest[j - 1] && rest[j - 1] in rest;
    }
  }

  /** Every list of a plan is in order: digests by their bytes, files and packs by
      their file names. */
  lemma PlanInOrder(f: Files, live: set<Digest>)
    ensures var plan := PlanOf(f, live);
            && StrictlyInOrder(plan.looseGarbage, DigestKey)
            && StrictlyInOrder(plan.packsToRemove, StemKey)
            && StrictlyInOrder(RewrittenPacks(plan.packsToRewrite), StemKey)
            && StrictlyInOrder(plan.orphanFiles, PathKey)
    ensures forall r | r in PlanOf(f, live).packsToRewrite :: StrictlyInOrder(r.keep, DigestKey)
  {
    hide Less, Precedes, StemKey, PathKey, Decide, SortedDigests, Unreadable, SumSizes;
    var plan, packs := PlanOf(f, live), PackStates(f, Listing(f));
    StrictDistinct(Listing(f), StemKey);
    PackStatesExact(f, Listing(f));
    PackStatesSorted(f, Listing(f));
    DecideInOrder(packs, live, ListedHashes(f) * live + HealthyHashes(packs, live));
    FilterStrict(SortedDigests(ListedHashes(f)), ListedHashes(f) - live, DigestKey);
    StrictInOrder(plan.looseGarbage, DigestKey);
    StrictInOrder(plan.packsToRemove, StemKey);
    StrictInOrder(RewrittenPacks(plan.packsToRewrite), StemKey);
    StrictInOrder(plan.orphanFiles, PathKey);
    PlanFacts(f, live);
    forall r | r in plan.packsToRewrite ensures StrictlyInOrder(r.keep, DigestKey) {
      StrictInOrder(r.keep, DigestKey);
    }
  }

  /* What a complete sweep leaves in the pack directory */

  /** Every pack file has its index and every index its pack. */
  lemma AfterPaired(c: Codec, g: Contents, f: Files, live: set<Digest>, o: Options)
    requires Sweepable(c, g, f, live) && !o.mode.DryRun?
    requires o.rewritePartialPacks ==> NamesFree(c, g, f, live)
    ensures forall s :: Pack(s) in After(c, f, live, o) <==> Idx(s) in After(c, f, live, o)
  {
    hide PlanOf, After, Sweepable, NamesFree;
    var f' := After(c, f, live, o);
    forall s ensures Pack(s) in f' <==> Idx(s) in f' {
      AfterNoOrphans(c, g, f, live, o, Pack(s));
      AfterNoOrphans(c, g, f, live, o, Idx(s));
    }
  }

  /** With rewriting on, as many packs come to be readable as the report counts as
      rewritten. */
  lemma RewrittenCount(c: Codec, g: Contents, f: Files, live: set<Digest>, o: Options)
    requires Sweepable(c, g, f, live) && !o.mode.DryRun? && o.rewritePartialPacks && NamesFree(c, g, f, live)
    ensures var f' := After(c, f, live, o);
            |PlanOf(f, live).packsToRewrite| == |set s | s in PackStems(f') && Indexed(f', s) && !Indexed(f, s)|
  {
    hide ParseIndex, PlanOf, After, Sweepable, NamesFree, Indexed, HashesOf, NewName, Ready;
    var f', rs := After(c, f, live, o), PlanOf(f, live).packsToRewrite;
    var names := NewNames(c, g, rs);
    NewNamesExact(c, g, f, live);
    var made := set s | s in PackStems(f') && Indexed(f', s) && !Indexed(f, s);
    forall s ensures s in names <==> s in made {
      if s in names {
        var r :| r in rs && s == NewName(c, g, r);
        NewPackStays(c, g, f, live, o, r);
      }
      if s in made {
        AfterPack(c, g, f, live, o, s);
      }
    }
    DistinctSize(names, made);
  }

  function NewNames(c: Codec, g: Contents, rs: seq<Rewrite>): (names: seq<Name>)
    ensures |names| == |rs| && forall i | 0 <= i < |rs| :: names[i] == NewName(c, g, rs[i])
  {
    if rs == [] then [] else [NewName(c, g, rs[0])] + NewNames(c, g, rs[1..])
  }

  lemma SweepableParts(c: Codec, g: Contents, f: Files, live: set<Digest>)
    requires Sweepable(c, g, f, live)
    ensures Lawful(c) && WellFormed(c, g, f) && ReplacementsInPlay(c, g, PlanOf(f, live).packsToRewrite)
  {
  }

  lemma NewNamesExact(c: Codec, g: Contents, f: Files, live: set<Digest>)
    requires Sweepable(c, g, f, live)
    ensures var rs := PlanOf(f, live).packsToRewrite; var names := NewNames(c, g, rs);
            && Distinct(names)
            && (forall s :: s in names <==> exists r :: r in rs && s == NewName(c, g, r))
            && forall s | s in names :: !Indexed(f, s)
  {
    hide PlanOf, NewName, NewNames, WellFormed, Indexed, Sweepable;
    assert Lawful(c) && WellFormed(c, g, f) && ReplacementsInPlay(c, g, PlanOf(f, live).packsToRewrite) by { SweepableParts(c, g, f, live); }
    var rs := PlanOf(f, live).packsToRewrite;
    var names := NewNames(c, g, rs);
    PlanReady(c, g, f, live);
    forall i, j | 0 <= i < j < |names| ensures names[i] != names[j] {
      assert rs[i] in rs && rs[j] in rs && Elements(rs[i].keep) !! Elements(rs[j].keep);
      NewNamesDiffer(c, g, f, rs[i], rs[j]);
    }
    forall r | r in rs ensures NewName(c, g, r) in names {
      var i :| 0 <= i < |rs| && rs[i] == r;
      assert names[i] == NewName(c, g, r);
    }
    forall s | s in names ensures exists r :: r in rs && s == NewName(c, g, r) {
      var i :| 0 <= i < |names| && names[i] == s;
      assert rs[i] in rs;
    }
  }

  lemma NewPackStays(c: Codec, g: Contents, f: Files, live: set<Digest>, o: Options, r: Rewrite)
    requires Sweepable(c, g, f, live) && !o.mode.DryRun? && o.rewritePartialPacks && NamesFree(c, g, f, live)
    requires r in PlanOf(f, live).packsToRewrite
    ensures var f' := After(c, f, live, o); Indexed(f', NewName(c, g, r)) && NewName(c, g, r) in PackStems(f')
    ensures !Indexed(f, NewName(c, g, r))
  {
    hide ParseIndex, ReadBlob, PlanOf, NewName, WellFormed, SweepSteps, Victims, FirstPhase, After, Midway, NamesFree, HashesOf;
    var s, f1, f' := NewName(c, g, r), Midway(c, f, live, o), After(c, f, live, o);
    assert Survivor(c, g, f, live, o, s);
    SurvivorSpared(c, g, f, live, o, s);
    AfterEvicted(c, g, f, live, o);
    PlanReady(c, g, f, live);
    assert SameAt(f1, f', Pack(s)) && SameAt(f1, f', Idx(s));
    SamePackHashes(f1, f', s);
    PackStemsExact(f');
  }
}

/** A concrete sweep that fails after a finished replacement. */
module FailWitness {
  import opened Bytes
  import opened Codecs
  import opened Disks
  import opened GcReplan
  import opened GcModel
  import opened GcPlanning
  import opened GcRewrite
  import opened GcWitness
  import opened Inventory
  import opened PackFiles
  import opened PackFormat
  import opened PackTheorems
  import opened Sorting
  import opened StoreModel
  import opened SweepFailure

  const DAMAGED: Name := [122]

  /** The index of a pack whose file has lost all its records. */
  function DamagedIndex(): Bytes {
    IndexBytes([IndexEntry(OTHER, 12), IndexEntry(SWEPT, 12)])
  }

  /** The pack with a live and a dead object, and a damaged one with another. */
  function DamagedTree(): Files {
    Tree()[Pack(DAMAGED) := []][Idx(DAMAGED) := DamagedIndex()]
  }

  function Wanted(): set<Digest> {
    {KEPT, OTHER}
  }

  lemma EmptyPackUnread(c: Codec, index: PackIndex, h: Digest)
    ensures ReadBlob(c, [], index, h).Err?
  {
    hide Find, Decompress;
  }

  lemma TwoHashes(a: IndexEntry, b: IndexEntry, es: seq<IndexEntry>)
    requires multiset(es) == multiset([a, b])
    ensures Hashes(PackIndex(es)) == {a.hash, b.hash}
  {
    SameElements(es, [a, b]);
    assert a in [a, b] && b in [a, b];
  }

  lemma DamagedLoads()
    ensures ParseIndex(DamagedIndex()).Ok? && Hashes(ParseIndex(DamagedIndex()).value) == {OTHER, SWEPT}
  {
    hide IndexBytes, ParseIndex, Sort, Hashes;
    var es := [IndexEntry(OTHER, 12), IndexEntry(SWEPT, 12)];
    IndexRoundTrip(es, []);
    assert IndexBytes(es) + [] == IndexBytes(es);
    assert es[..2] == es;
    SortSorted(es, HashKey);
    TwoHashes(es[0], es[1], Sort(es, HashKey));
  }

  lemma NamesApart()
    ensures PackName(Toy(), Both()) != DAMAGED && Less(StemKey(PackName(Toy(), Both())), StemKey(DAMAGED))
    ensures forall objects :: PackName(Toy(), objects) != DAMAGED
  {
  }

  lemma DamagedTruthful()
    ensures TruthfulPack(Toy(), Strings, [], DamagedIndex())
  {
    hide ParseIndex, ReadBlob;
    forall h, index: PackIndex ensures ReadBlob(Toy(), [], index, h).Err? {
      EmptyPackUnread(Toy(), index, h);
    }
  }

  lemma DamagedTreeHolds()
    ensures var f, q := DamagedTree(), PackName(Toy(), Both());
            && (forall s :: Indexed(f, s) <==> s == q || s == DAMAGED)
            && HashesOf(f, q) == {KEPT, SWEPT} && HashesOf(f, DAMAGED) == {OTHER, SWEPT}
            && f[Pack(DAMAGED)] == [] && f[Idx(DAMAGED)] == DamagedIndex()
            && SamePack(Tree(), f, q)
            && ListedHashes(f) == {}
    ensures ReadsTruthfully(Toy(), Strings, DamagedTree())
  {
    hide ParseIndex, ReadBlob, PackBytes, CreatedIndex, PackName, Tree, DamagedIndex, Toy, Strings, ToyHash, TruthfulPack, Hashes;
    var f, q := DamagedTree(), PackName(Toy(), Both());
    TreeGood();
    TreeFiles();
    NamesApart();
    DamagedLoads();
    forall s | s != DAMAGED ensures SamePack(Tree(), f, s) && Indexed(Tree(), s) == Indexed(f, s) && HashesOf(Tree(), s) == HashesOf(f, s) {
      assert SamePack(Tree(), f, s);
      SamePackHashes(Tree(), f, s);
    }
    assert GoodPack(Toy(), Strings, q, Tree()[Pack(q)], Tree()[Idx(q)]);
    GoodIsTruthful(Toy(), Strings, q, Tree()[Pack(q)], Tree()[Idx(q)]);
    DamagedTruthful();
    forall s | Paired(f, s) ensures TruthfulPack(Toy(), Strings, f[Pack(s)], f[Idx(s)]) {
      if s != DAMAGED { assert Paired(Tree(), s); }
    }
  }

  /** The inventory, in listing order. */
  lemma DamagedInventory()
    ensures PackStates(DamagedTree(), Listing(DamagedTree())) ==
            [PackState(PackName(Toy(), Both()), SortedDigests({KEPT, SWEPT})), PackState(DAMAGED, SortedDigests({OTHER, SWEPT}))]
  {
    hide ParseIndex, PackName, DamagedTree, Tree, PackStates, SortedDigests, Indexed, HashesOf, Listing;
    var f, q := DamagedTree(), PackName(Toy(), Both());
    var packs := PackStates(f, Listing(f));
    var expected := [PackState(q, SortedDigests({KEPT, SWEPT})), PackState(DAMAGED, SortedDigests({OTHER, SWEPT}))];
    NamesApart();
    DamagedTreeHolds();
    StrictDistinct(Listing(f), StemKey);
    PackStatesExact(f, Listing(f));
    PackStatesSorted(f, Listing(f));
    IndexedListed(f, q);
    IndexedListed(f, DAMAGED);
    assert forall p :: p in expected <==> p == expected[0] || p == expected[1];
    StrictUnique(packs, expected, PackKey);
  }

  lemma KeepOne(hs: seq<Digest>, a: Digest, b: Digest, wanted: set<Digest>)
    requires hs == SortedDigests({a, b}) && a in wanted && b !in wanted
    ensures Filter(hs, wanted) == [a]
  {
    FilterStrict(hs, wanted, DigestKey);
    StrictUnique(Filter(hs, wanted), [a], DigestKey);
  }

  /** Two packs with a live object each that is covered nowhere. */
  lemma DecideTwo(a: PackState, b: PackState, live: set<Digest>, x: Digest, y: Digest, dead: Digest)
    requires a.hashes == SortedDigests({x, dead}) && b.hashes == SortedDigests({y, dead})
    requires x in live && y in live && dead !in live && x != y
    ensures HealthyHashes([a, b], live) == {}
    ensures Decide([a, b], live, {}) == Decision([], [Rewrite(a.stem, [x]), Rewrite(b.stem, [y])])
  {
    hide SortedDigests, Filter, Decide;
    assert dead in a.hashes && dead in b.hashes;
    assert HasGarbage(a, live) && HasGarbage(b, live);
    assert HealthyHashes([a, b], live) == {};
    KeepOne(a.hashes, x, dead, live - {});
    KeepOne(b.hashes, y, dead, live - {x});
    DecideStep([a, b], live, {});
    assert [a, b][1..] == [b] && [b][1..] == [];
    assert CoveredNext(a, live, {}) == {x};
    DecideStep([b], live, {x});
    DecideNone(live, CoveredNext(b, live, {x}));
  }

  lemma DecideNone(live: set<Digest>, covered: set<Digest>)
    ensures Decide([], live, covered) == Decision([], [])
  {
  }

  /** The plan: the intact pack is rewritten first, then the damaged one. */
  lemma DamagedPlan()
    ensures PlanOf(DamagedTree(), Wanted()).packsToRewrite ==
            [Rewrite(PackName(Toy(), Both()), [KEPT]), Rewrite(DAMAGED, [OTHER])]
    ensures !PlanFails(DamagedTree(), Wanted())
  {
    hide PackName, DamagedTree, SortedDigests, PlanOf, ToyHash, Toy, Indexed, HashesOf, ReadsTruthfully;
    var f, q := DamagedTree(), PackName(Toy(), Both());
    var a, b := PackState(q, SortedDigests({KEPT, SWEPT})), PackState(DAMAGED, SortedDigests({OTHER, SWEPT}));
    DamagedTreeHolds();
    DamagedInventory();
    DigestsApart();
    DecideTwo(a, b, Wanted(), KEPT, OTHER, SWEPT);
    PlanByInventory(f, Wanted(), [a, b]);
  }

  lemma DigestsApart()
    ensures KEPT != SWEPT && KEPT != OTHER && SWEPT != OTHER && SWEPT !in Wanted()
  {
    assert KEPT[0] == 0 && SWEPT[0] == 1 && OTHER[0] == 2;
  }

  /** The plan of a tree in which nothing is listed. */
  lemma PlanByInventory(f: Files, live: set<Digest>, packs: seq<PackState>)
    requires PackStates(f, Listing(f)) == packs && ListedHashes(f) == {} && HealthyHashes(packs, live) == {}
    ensures PlanOf(f, live).packsToRewrite == Decide(packs, live, {}).rewrite && !PlanFails(f, live)
  {
    hide PackStates, Listing, Decide, HealthyHashes, ListedHashes, SumSizes, OrphanList, Unreadable, LooseGarbage;
    assert ListedHashes(f) * live + HealthyHashes(packs, live) == {};
  }

  /* The sweep */

  lemma WantedInPlay()
    ensures ReplacementsInPlay(Toy(), Strings, PlanOf(DamagedTree(), Wanted()).packsToRewrite)
  {
    hide PlanOf, CreatedIndex, PackName, DamagedTree, Objects;
    DamagedPlan();
    StringsDiffer();
    BothObjects();
  }

  lemma FirstReads()
    ensures ReadKeep(Toy(), DamagedTree(), Rewrite(PackName(Toy(), Both()), [KEPT])) == Some(Single())
  {
    hide ParseIndex, ReadBlob, PackBytes, CreatedIndex, PackName, Tree, DamagedTree, HashesOf, ReadEach, Strings, ToyHash, WellFormed;
    var f, q := DamagedTree(), PackName(Toy(), Both());
    TreeGood();
    DamagedTreeHolds();
    BothObjects();
    ReadEachGood(Toy(), Strings, Tree(), q, [KEPT]);
  }

  lemma SecondFails(f: Files)
    requires Pack(DAMAGED) in f && f[Pack(DAMAGED)] == []
    ensures ReadKeep(Toy(), f, Rewrite(DAMAGED, [OTHER])) == None
  {
    hide ParseIndex, ReadBlob;
    if Indexed(f, DAMAGED) {
      EmptyPackUnread(Toy(), ParseIndex(f[Idx(DAMAGED)]).value, OTHER);
    }
  }

  lemma SecondReplacementFails(c: Codec, f: Files, rs: seq<Rewrite>, objects: seq<Blob>)
    requires |rs| == 2 && ReadKeep(c, f, rs[0]) == Some(objects) && objects != []
    requires ReadKeep(c, ApplyAll(f, CreateSteps(c, objects)), rs[1]) == None
    ensures !RewritePhase(c, f, rs).ok
  {
    hide ReadKeep, CreateSteps, ApplyAll;
    var f1 := ApplyAll(f, CreateSteps(c, objects));
    assert rs[1..] == [rs[1]];
    assert !RewritePhase(c, f1, rs[1..]).ok;
  }

  lemma FailedPhaseFails(c: Codec, f: Files, live: set<Digest>, o: Options)
    requires !o.mode.DryRun? && o.rewritePartialPacks && !RewritePhase(c, f, PlanOf(f, live).packsToRewrite).ok
    ensures !SweepOutcome(c, f, live, o).ok
  {
    hide PlanOf, RewritePhase, PlanFails;
  }

  lemma DamagedFileStays(objects: seq<Blob>)
    ensures var f1 := ApplyAll(DamagedTree(), CreateSteps(Toy(), objects)); Pack(DAMAGED) in f1 && f1[Pack(DAMAGED)] == []
  {
    hide PackName, PackBytes, CreatedIndex, Tree;
    NamesApart();
    var q := PackName(Toy(), objects);
    ApplyTwo(DamagedTree(), Write(Pack(q), PackBytes(Toy(), objects)), Write(Idx(q), CreatedIndex(Toy(), objects)));
  }

  lemma DamagedSweepFails()
    ensures !SweepOutcome(Toy(), DamagedTree(), Wanted(), REWRITING).ok
    ensures !FailsAtOnce(Toy(), DamagedTree(), Wanted())
  {
    hide PlanOf, PackName, DamagedTree, ReadKeep, PlanFails, SweepOutcome, RewritePhase, CreateSteps, ApplyAll, Toy;
    var f, rs := DamagedTree(), PlanOf(DamagedTree(), Wanted()).packsToRewrite;
    DamagedPlan();
    FirstReads();
    DamagedFileStays(Single());
    SecondFails(ApplyAll(f, CreateSteps(Toy(), Single())));
    SecondReplacementFails(Toy(), f, rs, Single());
    FailedPhaseFails(Toy(), f, Wanted(), REWRITING);
  }

  /** A store whose pack cache is what is on disk sweeps, fails at the damaged
      pack after writing the first replacement, and keeps a cache that is not what
      is on disk. */
  lemma FailedSweepCanGoStale(s': State)
    requires var s := State(DamagedTree(), Some(CacheOf(DamagedTree())), [], true);
             s' == s.(files := ApplyAll(s.files, SweepOutcome(Toy(), s.files, Wanted(), REWRITING).steps))
    ensures var s := State(DamagedTree(), Some(CacheOf(DamagedTree())), [], true);
            && Next(Config(Toy(), true), s, Sweep(Wanted(), REWRITING), Swept(false), s')
            && s'.packCache != Some(CacheOf(s'.files))
  {
    hide PlanOf, DamagedTree, SweepOutcome, CacheOf, ReadsTruthfully, FailsAtOnce, Toy, Strings, ApplyAll, ReplacementsInPlay, Lawful, Wanted, HashesOf, Indexed, SamePack;
    var s := State(DamagedTree(), Some(CacheOf(DamagedTree())), [], true);
    ToyLawful();
    DamagedTreeHolds();
    WantedInPlay();
    DamagedSweepFails();
    FailedSweepGoesStale(Config(Toy(), true), Strings, s, Wanted(), REWRITING, s');
  }
}

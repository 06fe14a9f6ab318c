/** Concrete stores that sweeps damage. */
module GcWitness {
  import opened Bytes
  import opened Codecs
  import opened Disks
  import opened GcBytes
  import opened GcConverge
  import opened GcFixpoint
  import opened GcModel
  import opened GcOutcome
  import opened GcPlanning
  import opened GcRerun
  import opened GcRewrite
  import opened GcSafety
  import opened Hex
  import opened Inventory
  import opened Layout
  import opened PackFormat
  import opened PackTheorems
  import opened Sorting

  /** A hash that tells the strings of the examples apart: by their length, and
      indexes by the first byte of their first digest. */
  function ToyHash(b: Bytes): Digest {
    [|b| % 256] + [if |b| > INDEX_HEADER then b[INDEX_HEADER] else 0] + seq(30, _ => 0)
  }

  function Toy(): Codec {
    Framing(ToyHash)
  }

  const KEPT: Digest := ToyHash([])
  const SWEPT: Digest := ToyHash([1])
  const OTHER: Digest := ToyHash([1, 1])

  /** One pack with a live and a dead object. */
  function Both(): seq<Blob> {
    [Blob(KEPT, []), Blob(SWEPT, [1])]
  }

  function Single(): seq<Blob> {
    [Blob(KEPT, [])]
  }

  function SingleOther(): seq<Blob> {
    [Blob(OTHER, [1, 1])]
  }

  function Strings(d: Digest): Bytes {
    if d == KEPT then []
    else if d == SWEPT then [1]
    else if d == OTHER then [1, 1]
    else if d == ToyHash(CreatedIndex(Toy(), SingleOther())) then CreatedIndex(Toy(), SingleOther())
    else if d == ToyHash(CreatedIndex(Toy(), Single())) then CreatedIndex(Toy(), Single())
    else CreatedIndex(Toy(), Both())
  }

  function Tree(): Files {
    map[Pack(PackName(Toy(), Both())) := PackBytes(Toy(), Both()),
        Idx(PackName(Toy(), Both())) := CreatedIndex(Toy(), Both())]
  }

  lemma IndexHash(objects: seq<Blob>)
    requires objects != []
    ensures ToyHash(CreatedIndex(Toy(), objects))[..2] == [(12 + 40 * |objects|) % 256, objects[0].hash[0]]
  {
    var es := EntriesOf(Toy(), objects);
    EntryBytesAt(es, 0);
    EntriesOfAt(Toy(), objects, 0);
    var h := EntryBytes(es)[0..32];
    assert h[0] == EntryBytes(es)[0] == CreatedIndex(Toy(), objects)[12];
  }

  lemma StringsDiffer()
    ensures ToyHash(CreatedIndex(Toy(), Single()))[..2] == [52, 0]
    ensures ToyHash(CreatedIndex(Toy(), SingleOther()))[..2] == [52, 2]
    ensures ToyHash(CreatedIndex(Toy(), Both()))[..2] == [92, 0]
    ensures KEPT[..2] == [0, 0] && SWEPT[..2] == [1, 0] && OTHER[..2] == [2, 0]
    ensures Strings(ToyHash(CreatedIndex(Toy(), Single()))) == CreatedIndex(Toy(), Single())
    ensures Strings(ToyHash(CreatedIndex(Toy(), SingleOther()))) == CreatedIndex(Toy(), SingleOther())
    ensures Strings(ToyHash(CreatedIndex(Toy(), Both()))) == CreatedIndex(Toy(), Both())
  {
    hide CreatedIndex;
    IndexHash(Single());
    IndexHash(SingleOther());
    IndexHash(Both());
  }

  lemma TreeGood()
    ensures Lawful(Toy()) && WellFormed(Toy(), Strings, Tree())
    ensures forall s :: Indexed(Tree(), s) <==> s == PackName(Toy(), Both())
    ensures HashesOf(Tree(), PackName(Toy(), Both())) == {KEPT, SWEPT}
  {
    hide ParseIndex, ReadBlob, PackBytes, CreatedIndex, PackName, Toy, Strings, Both, GoodPack;
    ToyLawful();
    BothInPlay();
    BothObjects();
    CreatedPackGood(Toy(), Strings, [KEPT, SWEPT]);
    assert Elements([KEPT, SWEPT]) == {KEPT, SWEPT};
    assert forall s :: Indexed(Tree(), s) <==> s == PackName(Toy(), Both());
  }

  lemma ToyLawful()
    ensures Lawful(Toy())
  {
    FramingLawful(ToyHash);
  }

  lemma BothInPlay()
    ensures InPlay(Toy(), Strings, CreatedIndex(Toy(), Both()))
  {
    hide CreatedIndex;
    StringsDiffer();
  }

  lemma BothObjects()
    ensures Objects(Strings, [KEPT, SWEPT]) == Both() && Objects(Strings, [KEPT]) == Single()
    ensures Objects(Strings, [OTHER]) == SingleOther()
    ensures Packable(Toy(), Both())
  {
    hide CreatedIndex, Strings;
    SmallStrings();
    assert [KEPT, SWEPT][..1] == [KEPT] && [KEPT][..0] == [] && [OTHER][..0] == [];
    assert KEPT[0] != SWEPT[0];
  }

  lemma SmallStrings()
    ensures Strings(KEPT) == [] && Strings(SWEPT) == [1] && Strings(OTHER) == [1, 1]
  {
    hide CreatedIndex;
    assert KEPT[0] == 0 && SWEPT[0] == 1 && OTHER[0] == 2;
  }

  /** The plan is to replace the pack by one with the live object. */
  lemma TreePlan()
    ensures exists r :: PlanOf(Tree(), {KEPT}).packsToRewrite == [r] && r.keep == [KEPT]
  {
    hide ParseIndex, ReadBlob, PackBytes, CreatedIndex, PackName, PlanOf, WellFormed;
    var rs := PlanOf(Tree(), {KEPT}).packsToRewrite;
    TreeGood();
    StringsDiffer();
    PlanFacts(Tree(), {KEPT});
    CoverageExact(Tree(), {KEPT});
    LooseHashesExact(Tree());
    assert Partial(Tree(), {KEPT}, PackName(Toy(), Both())) by { assert SWEPT !in {KEPT}; }
    assert KEPT in Kept(rs);
    forall r | r in rs ensures r.keep == [KEPT] {
      assert r.keep[0] in Elements(r.keep);
      assert forall h :: h in r.keep <==> h in Elements(r.keep);
      StrictUnique(r.keep, [KEPT], DigestKey);
    }
    OnlyOne(rs);
  }

  lemma OnlyOne(rs: seq<Rewrite>)
    requires PairwiseDisjoint(rs) && Kept(rs) != {}
    requires forall r | r in rs :: r.keep == [KEPT]
    ensures |rs| == 1
  {
    hide PairwiseDisjoint;
    assert |rs| > 0;
    if |rs| > 1 {
      assert rs[0] in rs && rs[1] in rs;
      DisjointOnce(rs, 0, 1, KEPT);
    }
  }

  const REWRITING := Options(DeleteMode, true)

  /** A sweep that stops after its first write. */
  const CRASH := Attempt(REWRITING, 1, None)

  lemma TreeSweepable()
    ensures Sweepable(Toy(), Strings, Tree(), {KEPT})
  {
    hide ParseIndex, ReadBlob, PackBytes, CreatedIndex, PlanOf, WellFormed;
    TreeGood();
    StringsDiffer();
    BothObjects();
    TreePlan();
  }

  lemma NewNameDiffers(r: Rewrite)
    requires r.keep == [KEPT]
    ensures Idx(NewName(Toy(), Strings, r)) !in Tree()
  {
    hide PackBytes, CreatedIndex;
    StringsDiffer();
    BothObjects();
    if NewName(Toy(), Strings, r) == PackName(Toy(), Both()) {
      StemOfInjective(ToyHash(CreatedIndex(Toy(), Single())), ToyHash(CreatedIndex(Toy(), Both())));
    }
  }

  lemma CrashLeavesBarePack()
    ensures !LeavesNoBarePack(Toy(), Tree(), {KEPT}, CRASH)
  {
    hide PlanOf, Midway, FirstPhase, Sweepable, NewName, NewSteps, Tree, EvictPhase, SweepSteps, LeavesNoBarePack;
    var f, rs := Tree(), PlanOf(Tree(), {KEPT}).packsToRewrite;
    TreeSweepable();
    TreePlan();
    var r :| rs == [r] && r.keep == [KEPT];
    SweepShape(Toy(), Strings, f, {KEPT}, REWRITING);
    NewStepsShape(Toy(), Strings, r);
    NewNameDiffers(r);
    FirstWriteBare(Toy(), f, {KEPT}, CRASH, NewName(Toy(), Strings, r));
  }

  /** Stopping after the first write leaves its pack bare. */
  lemma FirstWriteBare(c: Codec, f: Files, live: set<Digest>, a: Attempt, q: Name)
    requires a.stop == 1 && a.torn.None? && Idx(q) !in f
    requires var steps := SweepSteps(c, f, live, a.options);
             steps != [] && steps[0].Write? && steps[0].path == Pack(q)
    ensures !LeavesNoBarePack(c, f, live, a)
  {
    hide SweepSteps;
    var steps := SweepSteps(c, f, live, a.options);
    assert steps[..1] == [steps[0]];
    ApplyOne(f, steps[0]);
  }

  lemma SuffixInPlay(c: Codec, g: Contents, rs: seq<Rewrite>, i: nat)
    requires ReplacementsInPlay(c, g, rs) && i <= |rs|
    ensures ReplacementsInPlay(c, g, rs[i..])
  {
    hide CreatedIndex, Objects;
    assert forall r | r in rs[i..] :: r in rs;
  }

  lemma TreeTidy()
    ensures AllIndexed(Tree()) && Orphans(Tree()) == {} && NoShadow(Tree(), {KEPT})
    ensures NamesFree(Toy(), Strings, Tree(), {KEPT})
  {
    hide ParseIndex, PackBytes, CreatedIndex, PackName, Tree, PlanOf, NewName;
    TreeGood();
    TreeFiles();
    ListedHashesExact(Tree());
  }

  /** In this truthful store, which has no orphan and whose indexes all load, a
      sweep that crashes after its first write and is run again to its end
      deletes the live object. */
  lemma RerunCanLose()
    ensures Sweepable(Toy(), Strings, Tree(), {KEPT}) && AllIndexed(Tree()) && Orphans(Tree()) == {}
    ensures KEPT in Present(Tree())
    ensures KEPT !in Present(After(Toy(), Stopped(Toy(), Tree(), {KEPT}, CRASH), {KEPT}, REWRITING))
  {
    hide ParseIndex, ReadBlob, PackBytes, CreatedIndex, PlanOf, WellFormed, PackName, LeavesNoBarePack, Stopped, After, BareAt, Toy, Strings, Tree;
    var c, f, live := Toy(), Tree(), {KEPT};
    TreeGood();
    TreeTidy();
    TreeSweepable();
    CrashLeavesBarePack();
    PresentExact(f);
    var i := BareShape(c, Strings, f, live, CRASH);
    BareReplan(c, Strings, f, live, i, Stopped(c, f, live, CRASH));
    SuffixInPlay(c, Strings, PlanOf(f, live).packsToRewrite, i);
    BarePackLoses(c, Strings, f, live, CRASH, REWRITING);
  }

  /* A torn index */

  /** A sweep that stops at the start of its second write. */
  const TEAR := Attempt(REWRITING, 1, Some(0))

  lemma TearTearsIndex()
    ensures TearsIndex(Toy(), Tree(), {KEPT}, TEAR)
  {
    hide PlanOf, Midway, FirstPhase, Truthful, PlanFails, NewName, NewSteps, Tree, EvictPhase, SweepSteps;
    TreeSweepable();
    TreePlan();
    var r :| PlanOf(Tree(), {KEPT}).packsToRewrite == [r] && r.keep == [KEPT];
    SweepShape(Toy(), Strings, Tree(), {KEPT}, REWRITING);
    NewStepsShape(Toy(), Strings, r);
    assert |CreatedIndex(Toy(), Objects(Strings, r.keep))| > 0;
  }

  /** After it there is a pack whose index does not load, and the next sweep
      overwrites it. */
  lemma UnreadablePackCanBeTouched() returns (s: Name)
    ensures var f' := Stopped(Toy(), Tree(), {KEPT}, TEAR);
            Paired(f', s) && !Indexed(f', s) && !SamePack(f', After(Toy(), f', {KEPT}, REWRITING), s)
  {
    hide ParseIndex, ReadBlob, PackBytes, CreatedIndex, PlanOf, WellFormed, PackName, Stopped, After, TearsIndex, TornAt;
    var c, f, live := Toy(), Tree(), {KEPT};
    TreeGood();
    TreeSweepable();
    TearTearsIndex();
    var i := TornShape(c, Strings, f, live, TEAR);
    TornReplan(c, Strings, f, live, i, Stopped(c, f, live, TEAR));
    SuffixInPlay(c, Strings, PlanOf(f, live).packsToRewrite, i);
    s := TornPackIsTouched(c, Strings, f, live, TEAR, REWRITING);
  }

  /* An alias */

  /** The digits of a digest, split after the first. */
  function OddSplit(): Entry {
    Entry([48], [48] + seq(62, _ => 48))
  }

  /** The same pack, and a file that listing takes for the live object. */
  function ShadowTree(): Files {
    Tree()[Path.Alias(KEPT, OddSplit()) := []]
  }

  lemma OddSplitNamesKept()
    ensures NamedBy(OddSplit()) == Some(KEPT) && Layout.Alias(OddSplit())
  {
    AliasesExist();
    var t := OddSplit().dir + OddSplit().file;
    assert forall i | 0 <= i < 64 :: t[i] == 48;
    assert forall i | 0 <= i < 32 :: ParseByte(t[2 * i], t[2 * i + 1]) == Some(0);
    assert HexParse(t).value == KEPT;
  }

  lemma ShadowTreeGood()
    ensures WellFormed(Toy(), Strings, ShadowTree()) && AllIndexed(ShadowTree()) && Orphans(ShadowTree()) == {}
    ensures forall s :: Indexed(ShadowTree(), s) <==> s == PackName(Toy(), Both())
    ensures HashesOf(ShadowTree(), PackName(Toy(), Both())) == {KEPT, SWEPT}
    ensures ListedHashes(ShadowTree()) == {KEPT} && Loose(KEPT) !in ShadowTree()
  {
    hide ParseIndex, ReadBlob, PackBytes, CreatedIndex, PackName, Tree;
    TreeGood();
    TreeFiles();
    forall s ensures SamePack(Tree(), ShadowTree(), s) {
    }
    forall s ensures Indexed(ShadowTree(), s) == Indexed(Tree(), s) && HashesOf(ShadowTree(), s) == HashesOf(Tree(), s) {
      SamePackHashes(Tree(), ShadowTree(), s);
    }
    forall s | Indexed(ShadowTree(), s) ensures GoodPack(Toy(), Strings, s, ShadowTree()[Pack(s)], ShadowTree()[Idx(s)]) {
      assert GoodPack(Toy(), Strings, s, Tree()[Pack(s)], Tree()[Idx(s)]);
    }
  }

  lemma TreeFiles()
    ensures forall p | p in Tree() :: p == Pack(PackName(Toy(), Both())) || p == Idx(PackName(Toy(), Both()))
    ensures Pack(PackName(Toy(), Both())) in Tree() && Idx(PackName(Toy(), Both())) in Tree()
  {
  }

  /** Every sweep that is no dry run, rewriting or not, deletes the live object:
      the plan counts it as covered and removes the only pack that has it. */
  lemma SweepCanLoseAliased(o: Options)
    requires !o.mode.DryRun?
    ensures Truthful(Toy(), Strings, ShadowTree(), {KEPT}) && AllIndexed(ShadowTree()) && Orphans(ShadowTree()) == {}
    ensures NamedBy(OddSplit()) == Some(KEPT) && KEPT in Present(ShadowTree())
    ensures SweepOutcome(Toy(), ShadowTree(), {KEPT}, o).ok
    ensures KEPT !in Present(After(Toy(), ShadowTree(), {KEPT}, o))
  {
    hide ParseIndex, ReadBlob, PackBytes, CreatedIndex, PlanOf, WellFormed, PackName, ShadowTree, After, HashesOf, Indexed, SweepOutcome, Present;
    var c, f, live, q := Toy(), ShadowTree(), {KEPT}, PackName(Toy(), Both());
    FramingLawful(ToyHash);
    OddSplitNamesKept();
    ShadowTreeGood();
    StringsDiffer();
    assert SWEPT !in live;
    assert Partial(f, live, q);
    assert Shadowed(f, live, KEPT);
    PlanFacts(f, live);
    assert PlanOf(f, live).packsToRewrite == [] by {
      var rs := PlanOf(f, live).packsToRewrite;
      FirstIn(rs);
      NothingKept(f, live, rs);
    }
    ShadowLoses(c, Strings, f, live, o, KEPT);
    SweepShape(c, Strings, f, live, o);
  }

  lemma NothingKept(f: Files, live: set<Digest>, rs: seq<Rewrite>)
    requires live <= ListedHashes(f) && rs == PlanOf(f, live).packsToRewrite
    ensures forall r :: r !in rs
  {
    hide PlanOf;
    PlanFacts(f, live);
    forall r ensures r !in rs {
      if r in rs { KeepHasFirst(r); }
    }
  }

  lemma KeepHasFirst(r: Rewrite)
    requires r.keep != []
    ensures Elements(r.keep) != {}
  {
    assert r.keep[0] in Elements(r.keep);
  }

  /** A live-less sweep of one loose blob that has an alias: it succeeds, and so
      takes the loose file away; after it no plan succeeds any more. */
  function AliasedTree(): Files {
    map[Loose(KEPT) := Toy().compress([]), Path.Alias(KEPT, OddSplit()) := []]
  }

  lemma AliasedTreeGood()
    ensures WellFormed(Toy(), Strings, AliasedTree()) && !PlanFails(AliasedTree(), {})
    ensures PlanOf(AliasedTree(), {}).packsToRewrite == []
  {
    hide ParseIndex, ReadBlob, CreatedIndex, PlanOf;
    var f := AliasedTree();
    SmallStrings();
    assert GoodLoose(Toy(), Strings, KEPT, f[Loose(KEPT)]);
    LooseHashesExact(f);
    ListedHashesExact(f);
    PlanFacts(f, {});
    FirstIn(PlanOf(f, {}).packsToRewrite);
  }

  lemma SecondPlanFails(o: Options)
    requires !o.mode.DryRun?
    ensures NamedBy(OddSplit()) == Some(KEPT) && Sweepable(Toy(), Strings, AliasedTree(), {})
    ensures SweepOutcome(Toy(), AliasedTree(), {}, o).ok
    ensures PlanFails(After(Toy(), AliasedTree(), {}, o), {})
    ensures !SweepOutcome(Toy(), After(Toy(), AliasedTree(), {}, o), {}, o).ok
  {
    hide ParseIndex, ReadBlob, CreatedIndex, PlanOf, WellFormed, Toy, PlanFails, After, SweepOutcome, Strings;
    var f := AliasedTree();
    ToyLawful();
    OddSplitNamesKept();
    AliasedTreeGood();
    SweepShape(Toy(), Strings, f, {}, o);
    assert Path.Alias(KEPT, OddSplit()) in f;
    PlanFailsAgainExactly(Toy(), Strings, f, {}, o);
    PlanFailsIdle(Toy(), After(Toy(), f, {}, o), {}, o);
  }

  /* The counter */

  /** A rewriting sweep of the first tree counts more bytes than leave it. */
  lemma CounterExceedsDrop()
    ensures var f := Tree();
            SweepOutcome(Toy(), f, {KEPT}, REWRITING).gain > Total(f) - Total(After(Toy(), f, {KEPT}, REWRITING))
  {
    hide ParseIndex, ReadBlob, PackBytes, CreatedIndex, PlanOf, WellFormed, Toy, Total, After, SweepOutcome, Strings, Tree, NewName, PackName;
    var f, rs := Tree(), PlanOf(Tree(), {KEPT}).packsToRewrite;
    TreeSweepable();
    TreePlan();
    var r :| rs == [r] && r.keep == [KEPT];
    NewNameDiffers(r);
    TreeFiles();
    BytesWithRewrites(Toy(), Strings, f, {KEPT}, REWRITING);
    FreshOverwritesNothing(Toy(), Strings, f, rs);
  }
}

/** A concrete run with two crashed repacks that ends in the loss of a live blob. */
module CrashWitness {
  import opened Bytes
  import opened Codecs
  import opened CrashRuns
  import opened Damage
  import opened DamagedCopies
  import opened Disks
  import opened GcModel
  import opened GcOutcome
  import opened GcPlanning
  import opened GcWitness
  import opened Inventory
  import opened PackFormat
  import opened PackTheorems
  import opened RepackAgain
  import opened RepackCrash
  import opened RepackReads
  import opened RepackWitness
  import opened Sorting
  import opened Store
  import opened StoreModel
  import opened StoreRefinement

  function First(): Name {
    PackName(Toy(), Single())
  }

  function Second(): Name {
    PackName(Toy(), Both())
  }

  /** The effects of the first repack, which are those of its repetition. */
  function FirstEffects(): seq<Step> {
    CreateSteps(Toy(), Single()) + [Remove(Loose(KEPT))]
  }

  function SecondEffects(): seq<Step> {
    CreateSteps(Toy(), Both()) + [Remove(Loose(KEPT)), Remove(Loose(SWEPT))]
  }

  /** The first repack crashed before it deleted anything; its repetition while it
      opened the pack file, which truncates it. */
  function Undeleted(): Files {
    OneBlob()[Pack(First()) := PackBytes(Toy(), Single())][Idx(First()) := CreatedIndex(Toy(), Single())]
  }

  function Truncated(): Files {
    Undeleted()[Pack(First()) := []]
  }

  function WithMore(): Files {
    Truncated()[Loose(SWEPT) := Toy().compress([1])]
  }

  /** The last repack has packed both blobs and deleted their files. */
  function Buried(): Files {
    map[Pack(First()) := [], Idx(First()) := CreatedIndex(Toy(), Single()),
        Pack(Second()) := PackBytes(Toy(), Both()), Idx(Second()) := CreatedIndex(Toy(), Both())]
  }

  function Events(o: Options): seq<Event> {
    [Call(Put([]), Stored(Ok(KEPT))),
     Crash(Repack(0), FirstEffects(), 2, None),
     Crash(Repack(0), FirstEffects(), 0, Some(0)),
     Call(Put([1]), Stored(Ok(SWEPT))),
     Call(Repack(0), Repacked(Ok(2), Both())),
     Call(Sweep({KEPT}, o), Swept(true))]
  }

  ghost function States(o: Options): seq<State> {
    var ring := RingReads(Strings, [], [KEPT, SWEPT]).1;
    [State(map[], None, [], true),
     State(OneBlob(), None, [], true),
     State(Undeleted(), None, [], true),
     State(Truncated(), None, [], true),
     State(WithMore(), None, [], true),
     State(Buried(), None, ring, true),
     State(After(Toy(), Buried(), {KEPT}, o), None, ring, true)]
  }

  lemma NamesApart()
    ensures First() != Second() && KEPT != SWEPT
  {
    hide CreatedIndex;
    StringsDiffer();
    assert KEPT[0] == 0 && SWEPT[0] == 1;
    if First() == Second() {
      StemOfInjective(ToyHash(CreatedIndex(Toy(), Single())), ToyHash(CreatedIndex(Toy(), Both())));
    }
  }

  /* The calls */

  /** A crash of the repack of the one blob. */
  lemma RepackMayDo(f: Files)
    requires f == OneBlob() || f == Undeleted()
    ensures MayDo(Host(), State(f, None, [], true), Repack(0), FirstEffects())
  {
    hide PackName, PackBytes, CreatedIndex, Strings, Toy, RepackRun, LooseList, Single;
    var s := State(f, None, [], true);
    LooseKeptOnly(f);
    BothObjects();
    ToPackTrue(Strings, s);
    OneDeletion(KEPT);
    var steps, s' := RepackCanRun(Host(), Strings, s, 0, [false]);
  }

  lemma LooseKeptOnly(f: Files)
    requires f == OneBlob() || f == Undeleted()
    ensures LooseTruthful(Toy(), Strings, f) && Unaliased(f) && LooseList(f) == [KEPT]
  {
    hide PackName, PackBytes, CreatedIndex, Strings, Toy, LooseTruthful, LooseList;
    OneBlobReads();
    ListsKept();
    SameLoose(Toy(), Strings, OneBlob(), f, First());
  }

  lemma FirstCrash()
    ensures ApplyAll(OneBlob(), Cut(FirstEffects(), 2, None)) == Undeleted()
    ensures ApplyAll(Undeleted(), Cut(FirstEffects(), 0, Some(0))) == Truncated()
  {
    hide PackName, CreatedIndex, Toy;
    var w := FirstEffects();
    CutTree(OneBlob(), w, 2, None);
    assert w[..2] == [w[0], w[1]];
    ApplyTwo(OneBlob(), w[0], w[1]);
    CutTree(Undeleted(), w, 0, Some(0));
    assert w[..0] == [] && |w[0].data| > 0 && w[0].data[..0] == [];
  }

  lemma BothLoose()
    ensures LooseTruthful(Toy(), Strings, WithMore()) && Unaliased(WithMore()) && LooseList(WithMore()) == [KEPT, SWEPT]
  {
    hide PackName, PackBytes, CreatedIndex, Strings, Toy, LooseTruthful, LooseList, Undeleted;
    LooseKeptOnly(Undeleted());
    SameLoose(Toy(), Strings, Undeleted(), Truncated(), First());
    LooseAdded(Truncated());
  }

  lemma LooseAdded(f: Files)
    requires LooseTruthful(Toy(), Strings, f) && Unaliased(f) && LooseList(f) == [KEPT]
    ensures var f' := f[Loose(SWEPT) := Toy().compress([1])];
            LooseTruthful(Toy(), Strings, f') && Unaliased(f') && LooseList(f') == [KEPT, SWEPT]
  {
    hide Strings, Toy, LooseTruthful, LooseList;
    assert Less(KEPT, SWEPT) by { assert KEPT[0] == 0 && SWEPT[0] == 1; }
    SweptDecodes();
    TruthAdded(Toy(), Strings, f, SWEPT, Toy().compress([1]));
    ListAdded(f, KEPT, SWEPT, Toy().compress([1]));
  }

  lemma TruthAdded(c: Codec, g: Contents, f: Files, k: Digest, raw: Bytes)
    requires LooseTruthful(c, g, f) && GoodLoose(c, g, k, raw)
    ensures LooseTruthful(c, g, f[Loose(k) := raw])
  {
    hide Decode;
    forall h: Digest | Loose(h) in f[Loose(k) := raw] ensures GoodLoose(c, g, h, f[Loose(k) := raw][Loose(h)]) {
      if h != k { assert GoodLoose(c, g, h, f[Loose(h)]); }
    }
  }

  lemma ListAdded(f: Files, h: Digest, k: Digest, raw: Bytes)
    requires LooseList(f) == [h] && Less(h, k)
    ensures LooseList(f[Loose(k) := raw]) == [h, k]
  {
    var f' := f[Loose(k) := raw];
    LooseHashesExact(f);
    LooseHashesExact(f');
    forall x: Digest ensures x in LooseList(f') <==> x in [h, k] {
      assert Loose(x) in f <==> x in [h];
    }
    StrictUnique(LooseList(f'), [h, k], DigestKey);
  }

  lemma SweptDecodes()
    ensures GoodLoose(Toy(), Strings, SWEPT, Toy().compress([1]))
  {
    hide CreatedIndex, Strings;
    SmallStrings();
    assert Toy().inflate(Toy().compress([1])) == Some([1]) by { ToyLawful(); }
  }

  lemma TwoDeletions(h: Digest, k: Digest)
    ensures Deletions([h, k], Denied([h, k], [false, false])) == [Remove(Loose(h)), Remove(Loose(k))]
  {
    hide Denied, Deletions;
    NoneDenied([h, k], [false, false]);
    NoDeletions({});
    DeletionsAppend([], h, {});
    DeletionsAppend([h], k, {});
    assert [h] + [k] == [h, k] && [] + [h] == [h];
  }

  lemma NoneDenied(hs: seq<Digest>, denied: seq<bool>)
    requires |denied| == |hs| && forall i | 0 <= i < |hs| :: !denied[i]
    ensures Denied(hs, denied) == {}
  {
  }

  lemma NoDeletions(failed: set<Digest>)
    ensures Deletions([], failed) == []
  {
  }

  lemma LastRepack()
    ensures ApplyAll(WithMore(), SecondEffects()) == Buried()
  {
    hide PackName, CreatedIndex, Toy, PackBytes, WithMore, Buried;
    var f, w, dels := WithMore(), CreateSteps(Toy(), Both()), [Remove(Loose(KEPT)), Remove(Loose(SWEPT))];
    ApplyAllConcat(f, w, dels);
    ApplyTwo(f, w[0], w[1]);
    assert w == [w[0], w[1]];
    ApplyTwo(ApplyAll(f, w), dels[0], dels[1]);
    BuriedFrom();
  }

  lemma BuriedFrom()
    ensures ((WithMore()[Pack(Second()) := PackBytes(Toy(), Both())][Idx(Second()) := CreatedIndex(Toy(), Both())])
             - {Loose(KEPT)}) - {Loose(SWEPT)} == Buried()
  {
    hide PackName, CreatedIndex, Toy, PackBytes;
    NamesApart();
  }

  lemma RepacksBoth(s: State, s': State)
    requires s == State(WithMore(), None, [], true)
    requires s' == State(Buried(), None, RingReads(Strings, [], [KEPT, SWEPT]).1, true)
    ensures Next(Host(), s, Repack(0), Repacked(Ok(2), Both()), s')
  {
    hide PackName, PackBytes, CreatedIndex, Strings, Toy, RepackRun, LooseList, Both, WithMore, Buried, RingReads, LooseTruthful, ApplyAll, Next, CreateSteps, Deletions;
    BothLoose();
    BothObjects();
    ToPackTrue(Strings, s);
    TwoDeletions(KEPT, SWEPT);
    LastRepack();
    var steps, s1 := RepackCanRun(Host(), Strings, s, 0, [false, false]);
    RunIsNext(Host(), s, 0, 2, Both(), steps, s1);
  }

  lemma RunIsNext(cfg: Config, s: State, threshold: nat, n: nat, got: seq<Blob>, steps: seq<Step>, s': State)
    requires RepackRun(cfg, s, threshold, Ok(n), got, steps, s')
    ensures Next(cfg, s, Repack(threshold), Repacked(Ok(n), got), s')
  {
    hide RepackRun;
  }

  /* What the sweep finds */

  /** The same tree with the first pack whole. */
  function Whole(): Files {
    Buried()[Pack(First()) := PackBytes(Toy(), Single())]
  }

  lemma WholeGood()
    ensures Lawful(Toy()) && WellFormed(Toy(), Strings, Whole()) && AllIndexed(Whole())
    ensures forall s :: Indexed(Whole(), s) <==> s == First() || s == Second()
    ensures HashesOf(Whole(), First()) == {KEPT} && HashesOf(Whole(), Second()) == {KEPT, SWEPT}
    ensures forall p | p in Whole() :: p.Pack? || p.Idx?
  {
    hide ParseIndex, ReadBlob, PackBytes, CreatedIndex, PackName, Toy, Strings, Both, Single, GoodPack;
    ToyLawful();
    NamesApart();
    PacksInPlay();
    BothObjects();
    CreatedPackGood(Toy(), Strings, [KEPT, SWEPT]);
    CreatedPackGood(Toy(), Strings, [KEPT]);
    assert Elements([KEPT, SWEPT]) == {KEPT, SWEPT} && Elements([KEPT]) == {KEPT};
    forall s ensures Indexed(Whole(), s) <==> s == First() || s == Second() {
    }
  }

  lemma PacksInPlay()
    ensures InPlay(Toy(), Strings, CreatedIndex(Toy(), Both())) && InPlay(Toy(), Strings, CreatedIndex(Toy(), Single()))
    ensures Packable(Toy(), Single())
  {
    hide CreatedIndex, Strings;
    StringsDiffer();
  }

  lemma BuriedBehind()
    ensures Behind(Toy(), Strings, Whole(), Buried())
  {
    hide ParseIndex, ReadBlob, PackBytes, CreatedIndex, PackName, Toy, Strings, WellFormed, Behind;
    WholeGood();
    NamesApart();
    BehindTornPack(Toy(), Strings, Whole(), First(), 0);
    assert PackBytes(Toy(), Single())[..0] == [];
    assert Whole()[Pack(First()) := []] == Buried();
  }

  lemma PlanRemoves()
    ensures PlanOf(Whole(), {KEPT}).packsToRewrite == [] && !PlanFails(Whole(), {KEPT})
    ensures Healthy(Whole(), {KEPT}, First()) && !Healthy(Whole(), {KEPT}, Second())
  {
    hide ParseIndex, ReadBlob, PackBytes, CreatedIndex, PackName, PlanOf, WellFormed, Whole, Toy, Indexed, HashesOf, Strings;
    WholeGood();
    NamesApart();
    var rs := PlanOf(Whole(), {KEPT}).packsToRewrite;
    ListedHashesExact(Whole());
    assert SWEPT in HashesOf(Whole(), Second()) && SWEPT !in {KEPT};
    assert Healthy(Whole(), {KEPT}, First());
    CoverageExact(Whole(), {KEPT});
    SomethingKept(rs);
  }

  lemma SomethingKept(rs: seq<Rewrite>)
    requires forall r | r in rs :: r.keep != []
    ensures rs == [] || exists h :: h in Kept(rs)
  {
    if rs != [] {
      assert rs[0] in rs && rs[0].keep[0] in rs[0].keep;
      assert rs[0].keep[0] in Kept(rs);
    }
  }

  lemma TruncatedReadsNothing(index: PackIndex, h: Digest)
    ensures ReadBlob(Toy(), [], index, h).Err?
  {
    hide Find;
  }

  /** The good copy is in the second pack, and the first is in the way. */
  lemma BuriedCopy(o: Options)
    ensures HasCopy(Toy(), Strings, Buried(), KEPT)
    ensures forall d :: !ReadsAs(Toy(), Buried(), KEPT, d)
    ensures !CopyStays(Toy(), Strings, Buried(), {KEPT}, o, KEPT)
  {
    hide ParseIndex, ReadBlob, PackBytes, CreatedIndex, PackName, Toy, Strings, WellFormed, Behind, PlanOf, HashesOf, AllIndexed;
    WholeGood();
    BuriedBehind();
    BehindDamaged(Toy(), Strings, Whole(), Buried());
    DamagedPacks(Whole(), Buried());
    DamagedPlan(Whole(), Buried(), {KEPT});
    PlanRemoves();
    NamesApart();
    PackContent(Toy(), Strings, Whole(), Second(), KEPT);
    assert GoodRecord(Toy(), Strings, Buried(), Second(), KEPT);
    TruncatedReadsNothing(ParseIndex(Buried()[Idx(First())]).value, KEPT);
    assert Indexed(Buried(), First()) && KEPT in HashesOf(Buried(), First());
  }

  /** The sweep succeeds and drops it. */
  lemma SweepDrops(o: Options)
    requires !o.mode.DryRun?
    ensures SweepOutcome(Toy(), Buried(), {KEPT}, o).ok
    ensures !HasCopy(Toy(), Strings, After(Toy(), Buried(), {KEPT}, o), KEPT)
  {
    hide ParseIndex, ReadBlob, PackBytes, CreatedIndex, PackName, Toy, Strings, WellFormed, Behind, PlanOf, HasCopy, CopyStays, Whole, Buried, SweepOutcome, After, KeepIsGood, PlanFails;
    WholeGood();
    PlanRemoves();
    BuriedBehind();
    BuriedCopy(o);
    BehindDamaged(Toy(), Strings, Whole(), Buried());
    DamagedSteps(Toy(), Strings, Whole(), Buried(), {KEPT}, o);
    DamagedCopyExactly(Toy(), Strings, Whole(), Buried(), {KEPT}, o, KEPT);
  }

  /* The run */

  lemma PutStep(s: State, data: Bytes, f: Files)
    requires Loose(Toy().hash(data)) !in s.files && f == s.files[Loose(Toy().hash(data)) := Toy().compress(data)]
    ensures Next(Host(), s, Put(data), Stored(Ok(Toy().hash(data))), s.(files := f))
  {
  }

  lemma SweepStep(s: State, o: Options)
    requires !o.mode.DryRun? && SweepOutcome(Toy(), s.files, {KEPT}, o).ok && s.packCache == None
    ensures Next(Host(), s, Sweep({KEPT}, o), Swept(true), s.(files := After(Toy(), s.files, {KEPT}, o)))
  {
    hide SweepOutcome, Toy;
  }

  lemma EventsRun(o: Options)
    requires !o.mode.DryRun?
    ensures IsCrashRun(Host(), States(o), Events(o))
  {
    hide PackName, PackBytes, CreatedIndex, Next, MayDo, Cut, After, Strings, FirstEffects, Undeleted, Truncated, WithMore, Buried, RingReads, Toy, SweepOutcome, Both;
    var states, events := States(o), Events(o);
    RepackMayDo(OneBlob());
    RepackMayDo(Undeleted());
    FirstCrash();
    EffectsLong();
    PutsBoth();
    RepacksBoth(states[4], states[5]);
    SweepDrops(o);
    SweepStep(states[5], o);
    forall i | 0 <= i < 6 ensures EventNext(Host(), states[i], events[i], states[i + 1]) {
    }
  }

  lemma EffectsLong()
    ensures |FirstEffects()| == 3
  {
    hide CreatedIndex, PackBytes, PackName;
  }

  lemma PutsBoth()
    ensures Next(Host(), State(map[], None, [], true), Put([]), Stored(Ok(KEPT)), State(OneBlob(), None, [], true))
    ensures Next(Host(), State(Truncated(), None, [], true), Put([1]), Stored(Ok(SWEPT)), State(WithMore(), None, [], true))
  {
    hide PackName, PackBytes, CreatedIndex, Next;
    NamesApart();
    PutStep(State(map[], None, [], true), [], OneBlob());
    PutStep(State(Truncated(), None, [], true), [1], WithMore());
  }

  /** A blob is put; a repack of it crashes before its deletion, and again while it
      opens the pack file; another blob is put; a repack succeeds, and a sweep for
      which the first blob is live succeeds, in either mode, rewriting or not. No read
      finds the blob after the repack, and no good copy is left after the sweep: the
      truncated pack has no garbage and so counts as a copy. */
  lemma CrashesCanLose(o: Options)
    requires !o.mode.DryRun?
    ensures IsCrashRun(Host(), States(o), Events(o)) && States(o)[0] == State(map[], None, [], true)
    ensures ReadsAs(Toy(), States(o)[4].files, KEPT, [])
    ensures HasCopy(Toy(), Strings, States(o)[5].files, KEPT) && forall d :: !ReadsAs(Toy(), States(o)[5].files, KEPT, d)
    ensures !CopyStays(Toy(), Strings, States(o)[5].files, {KEPT}, o, KEPT)
    ensures !HasCopy(Toy(), Strings, States(o)[6].files, KEPT)
  {
    hide CopyStays, PackName, PackBytes, CreatedIndex, IsCrashRun, After, Strings, Buried, RingReads, Toy, HasCopy, ReadsAs, Undeleted, Truncated;
    EventsRun(o);
    BuriedCopy(o);
    SweepDrops(o);
    MoreReads();
  }

  lemma MoreReads()
    ensures ReadsAs(Toy(), WithMore(), KEPT, [])
  {
    hide PackName, PackBytes, CreatedIndex, Strings, Toy, ParseIndex, ReadBlob;
    NamesApart();
    OneBlobReads();
  }
}

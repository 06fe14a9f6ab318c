/** A concrete run that ends in a repack that loses its only blob. */
module RepackWitness {
  import opened Bytes
  import opened Codecs
  import opened Disks
  import opened GcModel
  import opened GcWitness
  import opened Inventory
  import opened PackFormat
  import opened RepackLoss
  import opened RepackReads
  import opened RingCache
  import opened Sorting
  import opened Store
  import opened StoreModel
  import opened StoreRefinement

  function Host(): Config {
    Config(Toy(), true)
  }

  /** The blob is the empty string; its file, and the file with a bit error that
      decodes to something else. */
  function OneBlob(): Files {
    map[Loose(KEPT) := Toy().compress([])]
  }

  function BadFile(): Files {
    map[Loose(KEPT) := [1]]
  }

  function Wrong(): Blob {
    Blob(KEPT, [1])
  }

  /** The effects of the repack, with a pack of the wrong bytes. */
  function Effects(): seq<Step> {
    CreateSteps(Toy(), [Wrong()]) + [Remove(Loose(KEPT))]
  }

  function PackedWrong(): Files {
    ApplyAll(OneBlob(), Effects())
  }

  /** The blob is put and its file is damaged; the host reads it with verification
      off, deletes it, puts it again, switches verification on, reads, repacks. */
  function Calls(): seq<Op> {
    [Put([]), External(BadFile()), SetVerifyOnRead(false), Get(KEPT), Delete(KEPT),
     Put([]), SetVerifyOnRead(true), Get(KEPT), Repack(0)]
  }

  function Answers(): seq<Reply> {
    [Stored(Ok(KEPT)), Done(None), Done(None), Data(Ok([1])), Done(None),
     Stored(Ok(KEPT)), Done(None), Data(Ok([1])), Repacked(Ok(1), [Wrong()])]
  }

  function States(): seq<State> {
    [State(map[], None, [], true),
     State(OneBlob(), None, [], true),
     State(BadFile(), None, [], true),
     State(BadFile(), None, [], false),
     State(BadFile(), None, [Wrong()], false),
     State(map[], None, [Wrong()], false),
     State(OneBlob(), None, [Wrong()], false),
     State(OneBlob(), None, [Wrong()], true),
     State(OneBlob(), None, [Wrong()], true),
     State(PackedWrong(), None, [Wrong()], true)]
  }

  lemma WrongHeld()
    ensures Position([Wrong()], KEPT) == Some(0) && Promote([Wrong()], 0) == [Wrong()]
    ensures CacheInsert([], Wrong()) == [Wrong()]
  {
  }

  lemma ListsKept()
    ensures LooseList(OneBlob()) == [KEPT]
  {
    LooseHashesExact(OneBlob());
    StrictUnique(LooseList(OneBlob()), [KEPT], DigestKey);
  }

  lemma OneDeletion(h: Digest)
    ensures Deletions([h], Denied([h], [false])) == [Remove(Loose(h))]
  {
    assert [h][..0] == [];
  }

  /** The repack: the ring cache answers for the blob. */
  lemma RepacksWrong(s: State, s': State)
    requires s == State(OneBlob(), None, [Wrong()], true) && s' == s.(files := PackedWrong())
    ensures RepackNext(Host(), s, 0, Ok(1), [Wrong()], s')
  {
    hide CreateSteps, IsListing, GetsNext, Toy, ApplyAll, LooseTruthful, LooseList, Strings;
    OneBlobReads();
    WrongToPack(s);
    ListsKept();
    OneDeletion(KEPT);
    var steps, s1 := RepackCanRun(Host(), Strings, s, 0, [false]);
    assert steps == Effects() && s1 == s';
  }

  /** All of it is a run of the store. */
  lemma CallsRun()
    ensures IsRun(Host(), States(), Calls(), Answers())
  {
    hide PackedWrong, PackName, PackBytes, CreatedIndex, RepackNext, GetNext, MarkNext, HasNext, SweepOutcome, Toy, Written;
    WrongHeld();
    RepacksWrong(States()[8], States()[9]);
    forall i | 0 <= i < |Calls()| ensures Next(Host(), States()[i], Calls()[i], Answers()[i], States()[i + 1]) {
      if i == 3 { ReadsBad(); }
      if i == 7 { ReadsCached(States()[7]); }
      if i == 4 { assert BadFile() - {Loose(KEPT)} == map[]; }
      if i == 0 || i == 5 { PutsGood(States()[i]); }
    }
  }

  lemma DecodesBad()
    ensures ReadLoose(Toy(), false, [1], KEPT) == Ok([1])
  {
  }

  lemma ReadsBad()
    ensures GetNext(Host(), States()[3], KEPT, Ok([1]), States()[4])
  {
    hide Toy, ReadLoose, PackedNext;
    WrongHeld();
    DecodesBad();
  }

  lemma ReadsCached(s: State)
    requires s == State(OneBlob(), None, [Wrong()], true)
    ensures GetNext(Host(), s, KEPT, Ok([1]), s)
  {
    hide Toy;
    WrongHeld();
  }

  lemma PutsGood(s: State)
    requires s.files == map[]
    ensures Next(Host(), s, Put([]), Stored(Ok(KEPT)), s.(files := OneBlob()))
  {
  }

  /* What it leaves */

  lemma OneBlobReads()
    ensures LooseTruthful(Toy(), Strings, OneBlob()) && Unaliased(OneBlob())
    ensures forall s :: !Indexed(OneBlob(), s)
    ensures ReadsAs(Toy(), OneBlob(), KEPT, []) && Strings(KEPT) == []
  {
    hide CreatedIndex, ParseIndex, ReadBlob;
    SmallStrings();
    assert Decode(Toy(), OneBlob()[Loose(KEPT)]) == Ok([]);
    assert GoodLoose(Toy(), Strings, KEPT, OneBlob()[Loose(KEPT)]);
  }

  lemma WrongPackIsShort()
    ensures |PackBytes(Toy(), [Wrong()])| < 100
  {
    hide Record;
    assert [Wrong()][..0] == [];
    assert |Record(Toy(), Wrong())| == 41 + |Toy().compress([1])|;
  }

  lemma WrongToPack(s: State)
    requires s == State(OneBlob(), None, [Wrong()], true)
    ensures ToPack(Strings, s) == [Wrong()] && RingReads(Strings, [Wrong()], LooseList(OneBlob())).1 == [Wrong()]
  {
    hide Strings, LooseList, Toy;
    WrongHeld();
    ListsKept();
    assert [KEPT][..0] == [];
    assert RingReads(Strings, [Wrong()], []) == ([], [Wrong()]);
  }

  lemma WrongPacks(s: State)
    requires s == State(OneBlob(), None, [Wrong()], true)
    ensures Packs(Toy(), Strings, s)
  {
    hide CreatedIndex, PackBytes, ParseIndex, ReadBlob, Strings, LooseList, LooseTruthful, Toy, PackName;
    ListsKept();
    WrongToPack(s);
    OneBlobReads();
    WrongPackIsShort();
    ToyLawful();
    assert |Toy().compress([1])| < U32_SIZE by { WrongIsShort(); }
  }

  lemma FileIsGone()
    ensures Loose(KEPT) !in PackedWrong()
  {
    hide CreateSteps, Toy;
    ApplyAllConcat(OneBlob(), CreateSteps(Toy(), [Wrong()]), [Remove(Loose(KEPT))]);
    ApplyOne(ApplyAll(OneBlob(), CreateSteps(Toy(), [Wrong()])), Remove(Loose(KEPT)));
  }

  lemma WrongIsShort()
    ensures |Toy().compress([1])| == 5 && Toy().hash([1]) != KEPT
  {
    assert Toy().hash([1])[0] == 1 && KEPT[0] == 0;
  }

  /** From a fresh store, this run answers a verified read with bytes that do not
      hash to the address, although the file is good again; and then it repacks,
      after which no read of the blob succeeds any more, though every blob is tiny
      and every call has answered Ok. */
  lemma RepackCanLose()
    ensures IsRun(Host(), States(), Calls(), Answers()) && States()[0] == State(map[], None, [], true)
    ensures States()[7].verify && Calls()[7] == Get(KEPT) && Answers()[7] == Data(Ok([1])) && Toy().hash([1]) != KEPT
    ensures ReadsAs(Toy(), States()[8].files, KEPT, [])
    ensures forall d :: !ReadsAs(Toy(), States()[9].files, KEPT, d)
  {
    hide PackedWrong, IsRun, CreatedIndex, PackBytes, ReadsAs, Strings, Toy, Packs, ToPack, RepackNext;
    var s := State(OneBlob(), None, [Wrong()], true);
    CallsRun();
    OneBlobReads();
    WrongIsShort();
    WrongPacks(s);
    var s' := s.(files := PackedWrong());
    RepacksWrong(s, s');
    assert Wrong() in [Wrong()];
    FileIsGone();
    RepackLoses(Host(), Strings, s, 0, 1, [Wrong()], s', KEPT);
  }
}

/** What completed repacks lose. */
module RepackLoss {
  import opened Bytes
  import opened Codecs
  import opened Disks
  import opened Errors
  import opened GcModel
  import opened Inventory
  import opened PackFormat
  import opened PackTheorems
  import opened RepackReads
  import opened RingCache
  import opened Sorting
  import opened Store
  import opened StoreIntegrity
  import opened StoreModel
  import opened StoreRefinement

  /** Blobs for the loose files of a tree, whatever their data. */
  ghost predicate BlobsFor(f: Files, got: seq<Blob>) {
    |got| == |LooseList(f)| && forall i | 0 <= i < |got| :: got[i].hash == LooseList(f)[i]
  }

  /** The second tree is the first with a pack of these blobs, and without some of
      its loose files. */
  ghost predicate Leaves(c: Codec, f: Files, got: seq<Blob>, f': Files) {
    var q := PackName(c, got);
    && Paired(f', q) && f'[Pack(q)] == PackBytes(c, got) && f'[Idx(q)] == CreatedIndex(c, got)
    && (forall p: Path | !p.Loose? && p != Pack(q) && p != Idx(q) :: SameAt(f, f', p))
    && (forall h: Digest | Loose(h) in f' :: Loose(h) in f && f'[Loose(h)] == f[Loose(h)])
  }

  /** A tree with good loose files of which such blobs can be packed. Packs may
      hold anything, and indexes need not load. */
  ghost predicate Packing(c: Codec, g: Contents, f: Files, got: seq<Blob>) {
    && Lawful(c) && LooseTruthful(c, g, f)
    && BlobsFor(f, got) && 0 < |got| < U32_SIZE
  }

  /** Every index but the one of that name loads. */
  ghost predicate OthersLoad(f: Files, q: Name) {
    forall s | s != q && Paired(f, s) :: Indexed(f, s)
  }

  /** Every other readable pack that lists the digest reads it as its content. */
  ghost predicate OthersRead(c: Codec, g: Contents, f: Files, q: Name, h: Digest) {
    forall s | s != q && Indexed(f, s) && h in HashesOf(f, s) ::
      ReadBlob(c, f[Pack(s)], ParseIndex(f[Idx(s)]).value, h) == Ok(g(h))
  }

  /** Some other readable pack lists the digest and does not read it. */
  ghost predicate OtherFails(c: Codec, f: Files, q: Name, h: Digest) {
    exists s :: s != q && Indexed(f, s) && h in HashesOf(f, s) && ReadBlob(c, f[Pack(s)], ParseIndex(f[Idx(s)]).value, h).Err?
  }

  lemma BlobsDistinct(f: Files, got: seq<Blob>)
    requires BlobsFor(f, got)
    ensures DistinctDigests(got)
    ensures (set b | b in got :: b.hash) == LooseHashes(f)
  {
    var hs := LooseList(f);
    StrictDistinct(hs, DigestKey);
    forall h | h in LooseHashes(f) ensures exists b | b in got :: b.hash == h {
      var i :| 0 <= i < |hs| && hs[i] == h;
      assert got[i] in got;
    }
  }

  /** The index of the pack lists exactly the loose blobs. */
  lemma PackLists(c: Codec, g: Contents, f: Files, got: seq<Blob>)
    requires Packing(c, g, f, got)
    ensures ParseIndex(CreatedIndex(c, got)) == Ok(Loaded(c, got))
    ensures Hashes(Loaded(c, got)) == LooseHashes(f)
  {
    hide ParseIndex, Hashes, LooseHashes, DistinctDigests, LooseTruthful;
    BlobsDistinct(f, got);
    CreatedIndexLoads(c, got);
    assert PackTheorems.Stored(c, got) == EntriesOf(c, got);
    SortSorted(EntriesOf(c, got), HashKey);
    SortedHashes(c, got, Loaded(c, got).entries);
  }

  /** The packs afterwards. */
  lemma LeavesPacks(c: Codec, g: Contents, f: Files, got: seq<Blob>, f': Files)
    requires Packing(c, g, f, got) && Leaves(c, f, got, f')
    ensures var q := PackName(c, got);
            && Indexed(f', q) && HashesOf(f', q) == LooseHashes(f)
            && f'[Pack(q)] == PackBytes(c, got) && ParseIndex(f'[Idx(q)]) == Ok(Loaded(c, got))
            && (AllIndexed(f') <==> OthersLoad(f, q))
            && forall s | s != q :: SamePack(f, f', s) && Indexed(f', s) == Indexed(f, s) && HashesOf(f', s) == HashesOf(f, s)
  {
    hide ParseIndex, ReadBlob, PackBytes, LooseTruthful, LooseHashes, Loaded, CreatedIndex, PackName, LooseList, Hashes;
    PackLists(c, g, f, got);
    var q := PackName(c, got);
    forall s | s != q ensures SamePack(f, f', s) && Indexed(f', s) == Indexed(f, s) && HashesOf(f', s) == HashesOf(f, s) {
      SamePackHashes(f, f', s);
    }
    if OthersLoad(f, q) {
      forall s | Paired(f', s) ensures Indexed(f', s) {
        if s != q { assert SamePack(f, f', s) && Paired(f, s); }
      }
    }
    if AllIndexed(f') {
      forall s | s != q && Paired(f, s) ensures Indexed(f, s) {
        assert Paired(f', s);
      }
    }
  }

  /** The pack gives a blob back exactly when it holds the right bytes and not more
      than the cap. */
  lemma PackReadsExactly(c: Codec, g: Contents, f: Files, got: seq<Blob>, h: Digest)
    requires Packing(c, g, f, got) && |PackBytes(c, got)| < U64_SIZE && Loose(h) in f
    requires forall b | b in got && b.data != g(b.hash) :: |c.compress(b.data)| < U32_SIZE
    ensures ReadBlob(c, PackBytes(c, got), Loaded(c, got), h) == Ok(g(h)) <==> Blob(h, g(h)) in got && |g(h)| <= MAX_DECOMPRESSED
    ensures forall x | Blob(h, x) in got && x != g(h) && c.hash(x) != h :: ReadBlob(c, PackBytes(c, got), Loaded(c, got), h).Err?
  {
    hide ParseIndex, ReadBlob, PackBytes, LooseTruthful, Loaded, CreatedIndex, Lawful, DistinctDigests;
    BlobsDistinct(f, got);
    LooseContent(c, g, f, h);
    var i := BlobFor(f, got, h);
    ReadsWithinCap(c, PackBytes(c, got), Loaded(c, got), h);
    if got[i].data != g(h) || |g(h)| <= MAX_DECOMPRESSED {
      if got[i].data == g(h) { WithinCapFrames(c, g(h)); }
      PackRoundTrip(c, got, i);
    }
  }

  lemma BlobFor(f: Files, got: seq<Blob>, h: Digest) returns (i: nat)
    requires BlobsFor(f, got) && Loose(h) in f
    ensures i < |got| && got[i] == Blob(h, got[i].data) && got[i] in got
    ensures forall b | b in got && b.hash == h :: b == got[i]
  {
    hide LooseHashes, LooseList;
    BlobsDistinct(f, got);
    LooseHashesExact(f);
    assert h in (set b | b in got :: b.hash);
    i :| 0 <= i < |got| && got[i].hash == h;
  }

  lemma WithinCapFrames(c: Codec, data: Bytes)
    requires Lawful(c) && |data| <= MAX_DECOMPRESSED
    ensures |c.compress(data)| < U32_SIZE
  {
    assert c.inflate(c.compress(data)) == Some(data);
  }

  lemma ReadsWithinCap(c: Codec, pack: Bytes, index: PackIndex, h: Digest)
    ensures ReadBlob(c, pack, index, h).Ok? ==>
              |ReadBlob(c, pack, index, h).value| <= MAX_DECOMPRESSED && c.hash(ReadBlob(c, pack, index, h).value) == h
  {
  }

  lemma LooseContent(c: Codec, g: Contents, f: Files, h: Digest)
    requires LooseTruthful(c, g, f) && Loose(h) in f
    ensures c.hash(g(h)) == h
  {
    assert GoodLoose(c, g, h, f[Loose(h)]);
  }

  /** Loose blobs read as their contents, and nothing else. */
  lemma LooseReadsAs(c: Codec, g: Contents, f: Files, h: Digest, d: Bytes)
    requires LooseTruthful(c, g, f) && Loose(h) in f
    ensures ReadsAs(c, f, h, d) <==> d == g(h)
  {
    assert GoodLoose(c, g, h, f[Loose(h)]);
  }

  lemma LeavesLoose(c: Codec, g: Contents, f: Files, got: seq<Blob>, f': Files)
    requires LooseTruthful(c, g, f) && Leaves(c, f, got, f')
    ensures LooseTruthful(c, g, f')
  {
    forall h: Digest | Loose(h) in f' ensures GoodLoose(c, g, h, f'[Loose(h)]) {
      assert GoodLoose(c, g, h, f[Loose(h)]);
    }
  }

  /** A blob whose loose file is gone: it reads from the new pack and all others
      that list it, if all indexes load. */
  lemma DeletedReadsExactly(c: Codec, g: Contents, f: Files, got: seq<Blob>, f': Files, h: Digest)
    requires Packing(c, g, f, got) && Leaves(c, f, got, f') && |PackBytes(c, got)| < U64_SIZE
    requires forall b | b in got && b.data != g(b.hash) :: |c.compress(b.data)| < U32_SIZE
    requires Loose(h) in f && Loose(h) !in f'
    ensures ReadsAs(c, f', h, g(h)) <==>
            && Blob(h, g(h)) in got && |g(h)| <= MAX_DECOMPRESSED
            && OthersLoad(f, PackName(c, got)) && OthersRead(c, g, f, PackName(c, got), h)
    ensures (exists x :: Blob(h, x) in got && x != g(h) && c.hash(x) != h) ==> forall d :: !ReadsAs(c, f', h, d)
    ensures !OthersLoad(f, PackName(c, got)) || OtherFails(c, f, PackName(c, got), h) ==> forall d :: !ReadsAs(c, f', h, d)
  {
    hide ParseIndex, ReadBlob, PackBytes, LooseTruthful, LooseHashes, Loaded, CreatedIndex, PackName, LooseList, HashesOf, Packing, Leaves, OthersLoad;
    var q := PackName(c, got);
    LeavesPacks(c, g, f, got, f');
    LooseHashesExact(f);
    PackReadsExactly(c, g, f, got, h);
    assert forall s | s != q && Indexed(f, s) :: SamePack(f, f', s) && Indexed(f', s);
    assert forall s | s != q && Indexed(f', s) :: SamePack(f, f', s) && Indexed(f, s);
  }

  /** A pack that has the name already has the index (another index could only
      have it by a hash collision). */
  ghost predicate NameFits(c: Codec, f: Files, got: seq<Blob>) {
    Indexed(f, PackName(c, got)) ==> f[Idx(PackName(c, got))] == CreatedIndex(c, got)
  }

  /** What read from packs alone reads on. */
  lemma PackedReadsOn(c: Codec, g: Contents, f: Files, got: seq<Blob>, f': Files, h: Digest, d: Bytes)
    requires Packing(c, g, f, got) && Leaves(c, f, got, f') && NameFits(c, f, got)
    requires Loose(h) !in f && ReadsAs(c, f, h, d)
    ensures ReadsAs(c, f', h, d)
  {
    hide ParseIndex, ReadBlob, PackBytes, LooseTruthful, LooseHashes, Loaded, CreatedIndex, PackName, LooseList, Packing, Hashes, HashesOf, NameFits;
    var q := PackName(c, got);
    LeavesPacks(c, g, f, got, f');
    LooseHashesExact(f);
    assert h !in HashesOf(f, q) by { NamedAlikeLists(c, g, f, got); }
    assert h !in HashesOf(f', q);
    assert OthersLoad(f, q);
    forall s | Indexed(f', s) && h in HashesOf(f', s)
      ensures ReadBlob(c, f'[Pack(s)], ParseIndex(f'[Idx(s)]).value, h) == Ok(d)
    {
      assert s != q && SamePack(f, f', s) && Indexed(f, s);
    }
  }

  lemma NamedAlikeLists(c: Codec, g: Contents, f: Files, got: seq<Blob>)
    requires Packing(c, g, f, got) && NameFits(c, f, got)
    ensures HashesOf(f, PackName(c, got)) <= LooseHashes(f)
  {
    hide ParseIndex, PackBytes, LooseTruthful, LooseHashes, Loaded, CreatedIndex, PackName, LooseList, Hashes;
    PackLists(c, g, f, got);
  }

  /* The call */

  /** What a repack that packs anything leaves. */
  lemma CompletedRepack(cfg: Config, g: Contents, s: State, threshold: nat, n: nat, got: seq<Blob>, s': State)
    requires LooseTruthful(cfg.c, g, s.files) && Unaliased(s.files)
    requires Next(cfg, s, Repack(threshold), Repacked(Ok(n), got), s') && n > 0
    ensures got == ToPack(g, s) && BlobsFor(s.files, got) && n == |got|
    ensures Leaves(cfg.c, s.files, got, s'.files)
  {
    hide LooseTruthful, GetsNext, CreateSteps, IsListing, LooseList, Happened, RingReads;
    var f := s.files;
    var steps :| RepackRun(cfg, s, threshold, Ok(n), got, steps, s');
    var listed :| IsListing(f, listed) && RepackListed(cfg, s, listed, threshold, Ok(n), got, steps, s');
    ListsLoose(f, listed);
    LooseHashesExact(f);
    var error: Option<CasError>, s1 :| GetsNext(cfg, s, listed, got, error, s1) && RepackWrites(cfg, s, listed, error, s1, Ok(n), got, steps, s');
    GetsLoose(cfg, g, s, listed, got, error, s1);
    RingReadsHashes(g, s.blobCache, listed);
    var f1 := ApplyAll(f, CreateSteps(cfg.c, got));
    var denied :| |denied| == |listed| && steps == CreateSteps(cfg.c, got) + Happened(f1, listed, denied);
    ApplyAllConcat(f, CreateSteps(cfg.c, got), Happened(f1, listed, denied));
    HappenedEffect(f1, listed, denied);
    LeavesWritten(cfg.c, f, got, s'.files);
  }

  lemma LeavesWritten(c: Codec, f: Files, got: seq<Blob>, f': Files)
    requires var f1 := ApplyAll(f, CreateSteps(c, got));
             && (forall p | p in f' :: p in f1 && f'[p] == f1[p])
             && (forall p | p in f1 && !p.Loose? :: p in f')
    ensures Leaves(c, f, got, f')
  {
    hide PackName, PackBytes, CreatedIndex;
    var q := PackName(c, got);
    ApplyTwo(f, Write(Pack(q), PackBytes(c, got)), Write(Idx(q), CreatedIndex(c, got)));
  }

  /** A store without aliases whose loose files are good and fewer than 2^32, whose
      pack of what the ring cache and the files give is a file (shorter than 2^64
      bytes), and whose packs do not collide with it by name. Wrong bytes that the
      ring cache may hold compress below 2^32. */
  ghost predicate Packs(c: Codec, g: Contents, s: State) {
    && Unaliased(s.files) && Packing(c, g, s.files, ToPack(g, s)) && NameFits(c, s.files, ToPack(g, s))
    && |PackBytes(c, ToPack(g, s))| < U64_SIZE
    && forall b | b in ToPack(g, s) && b.data != g(b.hash) :: |c.compress(b.data)| < U32_SIZE
  }

  /** What a deleted blob needs of the rest of the tree: it is within the cap, all
      other indexes load, and all other packs that list it read it. */
  ghost predicate Recoverable(c: Codec, g: Contents, f: Files, q: Name, h: Digest) {
    |g(h)| <= MAX_DECOMPRESSED && OthersLoad(f, q) && OthersRead(c, g, f, q, h)
  }

  /** After a repack that has packed something, with any ring cache, any packs, and
      whichever deletions fail: a store with empty caches reads a blob that was loose
      exactly when its file is still there, or the repack read its content (and not
      something else from the ring cache), it is at most 1 GiB, every other index
      loads, and every other pack that lists it reads it. */
  lemma RepackReadsExactly(cfg: Config, g: Contents, s: State, threshold: nat, n: nat, got: seq<Blob>, s': State, h: Digest)
    requires Packs(cfg.c, g, s) && Loose(h) in s.files
    requires Next(cfg, s, Repack(threshold), Repacked(Ok(n), got), s') && n > 0
    ensures ReadsAs(cfg.c, s.files, h, g(h))
    ensures ReadsAs(cfg.c, s'.files, h, g(h)) <==>
            || Loose(h) in s'.files
            || (Blob(h, g(h)) in ToPack(g, s) && Recoverable(cfg.c, g, s.files, PackName(cfg.c, ToPack(g, s)), h))
  {
    hide Next, Leaves, LooseTruthful, ToPack, PackBytes, ReadsAs, LooseList, BlobsFor, OthersLoad, OthersRead, PackName, NameFits;
    CompletedRepack(cfg, g, s, threshold, n, got, s');
    LooseReadsAs(cfg.c, g, s.files, h, g(h));
    if Loose(h) in s'.files {
      LeavesLoose(cfg.c, g, s.files, got, s'.files);
      LooseReadsAs(cfg.c, g, s'.files, h, g(h));
    } else {
      DeletedReadsExactly(cfg.c, g, s.files, got, s'.files, h);
    }
  }

  /** Whatever read from packs alone reads on. */
  lemma RepackKeepsPacked(cfg: Config, g: Contents, s: State, threshold: nat, n: nat, got: seq<Blob>, s': State, h: Digest, d: Bytes)
    requires Packs(cfg.c, g, s) && Loose(h) !in s.files && ReadsAs(cfg.c, s.files, h, d)
    requires Next(cfg, s, Repack(threshold), Repacked(Ok(n), got), s') && n > 0
    ensures ReadsAs(cfg.c, s'.files, h, d)
  {
    hide Next, Leaves, LooseTruthful, ToPack, PackBytes, ReadsAs, LooseList, BlobsFor, NameFits;
    CompletedRepack(cfg, g, s, threshold, n, got, s');
    PackedReadsOn(cfg.c, g, s.files, got, s'.files, h, d);
  }

  /** All indexes load afterwards exactly when all but the new one loaded before. */
  lemma RepackLoadsExactly(cfg: Config, g: Contents, s: State, threshold: nat, n: nat, got: seq<Blob>, s': State)
    requires Packs(cfg.c, g, s)
    requires Next(cfg, s, Repack(threshold), Repacked(Ok(n), got), s') && n > 0
    ensures AllIndexed(s'.files) <==> OthersLoad(s.files, PackName(cfg.c, ToPack(g, s)))
  {
    hide Next, Leaves, LooseTruthful, ToPack, PackBytes, LooseList, BlobsFor, AllIndexed, OthersLoad, PackName;
    CompletedRepack(cfg, g, s, threshold, n, got, s');
    LeavesPacks(cfg.c, g, s.files, got, s'.files);
  }

  /** A caller sees the indexes that do not load in the plan of a dry run. */
  lemma OthersLoadPlanned(f: Files, live: set<Digest>, q: Name)
    ensures OthersLoad(f, q) <==> forall s | s in PlanOf(f, live).unreadablePacks :: s == q
  {
    hide ParseIndex, Decide, PackStates;
    UnreadableExact(f, Listing(f));
  }

  lemma {:induction false} UnreadableExact(f: Files, stems: seq<Name>)
    ensures forall s :: s in Unreadable(f, stems) <==> s in stems && Paired(f, s) && !Indexed(f, s)
  {
    hide ParseIndex;
    if stems != [] {
      UnreadableExact(f, stems[..|stems| - 1]);
      assert stems == stems[..|stems| - 1] + [stems[|stems| - 1]];
    }
  }

  /** When a blob's loose file is deleted, no read of it succeeds any more if some
      other index does not load, or another pack lists it and does not read it, or
      the ring cache gave bytes of another hash for it. */
  lemma RepackLoses(cfg: Config, g: Contents, s: State, threshold: nat, n: nat, got: seq<Blob>, s': State, h: Digest)
    requires Packs(cfg.c, g, s)
    requires Next(cfg, s, Repack(threshold), Repacked(Ok(n), got), s') && n > 0
    requires Loose(h) in s.files && Loose(h) !in s'.files
    requires var q := PackName(cfg.c, ToPack(g, s));
             || !OthersLoad(s.files, q)
             || OtherFails(cfg.c, s.files, q, h)
             || exists x :: Blob(h, x) in got && cfg.c.hash(x) != h
    ensures forall d :: !ReadsAs(cfg.c, s'.files, h, d)
  {
    hide Next, Leaves, LooseTruthful, ToPack, PackBytes, ReadsAs, LooseList, BlobsFor, OthersLoad, OtherFails, PackName, NameFits;
    CompletedRepack(cfg, g, s, threshold, n, got, s');
    LooseContent(cfg.c, g, s.files, h);
    DeletedReadsExactly(cfg.c, g, s.files, got, s'.files, h);
  }

  /** Nothing that read before is lost. */
  ghost predicate KeepsReads(c: Codec, f: Files, f': Files) {
    forall h, d | ReadsAs(c, f, h, d) :: ReadsAs(c, f', h, d)
  }

  /** If the ring cache is right about what is loose: whatever read before the
      repack, from loose files or packs, reads after it if and only if every blob
      whose loose file is deleted is at most 1 GiB, every other index loads, and
      every other pack that lists the blob reads it. (A file is shorter than 2^64
      bytes; if all loose files are deleted and within the cap, the new pack is.) */
  lemma RepackSafeExactly(cfg: Config, g: Contents, s: State, threshold: nat, n: nat, got: seq<Blob>, s': State)
    requires var objects := Objects(g, LooseList(s.files)); Packing(cfg.c, g, s.files, objects) && NameFits(cfg.c, s.files, objects)
    requires Unaliased(s.files) && TrueFor(g, s.blobCache, LooseHashes(s.files))
    requires Next(cfg, s, Repack(threshold), Repacked(Ok(n), got), s') && n > 0
    requires (forall h: Digest :: Loose(h) !in s'.files) || |PackBytes(cfg.c, Objects(g, LooseList(s.files)))| < U64_SIZE
    ensures KeepsReads(cfg.c, s.files, s'.files) <==>
            forall h: Digest | Loose(h) in s.files && Loose(h) !in s'.files ::
              Recoverable(cfg.c, g, s.files, PackName(cfg.c, Objects(g, LooseList(s.files))), h)
  {
    hide Next, LooseTruthful, BlobsFor, PackBytes, ReadsAs, LooseList, ToPack, LooseHashes, TrueFor, NameFits, Recoverable, PackName;
    ToPackTrue(g, s);
    TrueBlobs(g, s.files);
    if h: Digest :| Loose(h) in s.files && Loose(h) !in s'.files && |g(h)| > MAX_DECOMPRESSED {
      OversizedGone(cfg.c, s'.files, h, g(h));
      LooseReadsAs(cfg.c, g, s.files, h, g(h));
      OversizedLost(cfg.c, g, s.files, PackName(cfg.c, Objects(g, LooseList(s.files))), h);
    } else {
      if forall h: Digest :: Loose(h) !in s'.files { WithinCapFits(cfg.c, g, s.files); }
      TrueRingPacks(cfg.c, g, s);
      KeepsReadsExactly(cfg, g, s, threshold, n, got, s');
    }
  }

  lemma OversizedLost(c: Codec, g: Contents, f: Files, q: Name, h: Digest)
    requires |g(h)| > MAX_DECOMPRESSED
    ensures !Recoverable(c, g, f, q, h)
  {
  }

  lemma TrueRingPacks(c: Codec, g: Contents, s: State)
    requires ToPack(g, s) == Objects(g, LooseList(s.files)) && |PackBytes(c, ToPack(g, s))| < U64_SIZE
    requires Unaliased(s.files) && Packing(c, g, s.files, ToPack(g, s)) && NameFits(c, s.files, ToPack(g, s))
    ensures Packs(c, g, s)
  {
    hide Packing, NameFits, ToPack, PackBytes, LooseList;
    TrueBlobs(g, s.files);
  }

  /** The same with any ring cache: the repack must also have read the content. */
  lemma KeepsReadsExactly(cfg: Config, g: Contents, s: State, threshold: nat, n: nat, got: seq<Blob>, s': State)
    requires Packs(cfg.c, g, s)
    requires Next(cfg, s, Repack(threshold), Repacked(Ok(n), got), s') && n > 0
    ensures KeepsReads(cfg.c, s.files, s'.files) <==>
            forall h: Digest | Loose(h) in s.files && Loose(h) !in s'.files ::
              Blob(h, g(h)) in ToPack(g, s) && Recoverable(cfg.c, g, s.files, PackName(cfg.c, ToPack(g, s)), h)
  {
    hide Next, Packs, PackBytes, ReadsAs, ToPack, Recoverable, PackName, LooseTruthful;
    assert LooseTruthful(cfg.c, g, s.files) by { PacksLoose(cfg.c, g, s); }
    forall h: Digest | Loose(h) in s.files
      ensures ReadsAs(cfg.c, s'.files, h, g(h)) <==>
              || Loose(h) in s'.files
              || (Blob(h, g(h)) in ToPack(g, s) && Recoverable(cfg.c, g, s.files, PackName(cfg.c, ToPack(g, s)), h))
      ensures ReadsAs(cfg.c, s.files, h, g(h))
    {
      RepackReadsExactly(cfg, g, s, threshold, n, got, s', h);
    }
    if forall h: Digest | Loose(h) in s.files :: ReadsAs(cfg.c, s'.files, h, g(h)) {
      forall h, d | ReadsAs(cfg.c, s.files, h, d) ensures ReadsAs(cfg.c, s'.files, h, d) {
        if Loose(h) in s.files {
          LooseReadsAs(cfg.c, g, s.files, h, d);
        } else {
          RepackKeepsPacked(cfg, g, s, threshold, n, got, s', h, d);
        }
      }
    }
  }

  lemma PacksLoose(c: Codec, g: Contents, s: State)
    requires Packs(c, g, s)
    ensures LooseTruthful(c, g, s.files)
  {
  }

  lemma TrueBlobs(g: Contents, f: Files)
    ensures forall b | b in Objects(g, LooseList(f)) :: b.data == g(b.hash)
    ensures forall h: Digest | Loose(h) in f :: Blob(h, g(h)) in Objects(g, LooseList(f))
  {
    LooseHashesExact(f);
    var hs := LooseList(f);
    forall h: Digest | Loose(h) in f ensures Blob(h, g(h)) in Objects(g, hs) {
      var i :| 0 <= i < |hs| && hs[i] == h;
      assert Objects(g, hs)[i] == Blob(h, g(h));
    }
  }

  lemma WithinCapFits(c: Codec, g: Contents, f: Files)
    requires Packing(c, g, f, Objects(g, LooseList(f)))
    requires forall h: Digest | Loose(h) in f :: |g(h)| <= MAX_DECOMPRESSED
    ensures |PackBytes(c, Objects(g, LooseList(f)))| < U64_SIZE
  {
    hide PackBytes, LooseTruthful, CreatedIndex;
    LooseHashesExact(f);
    var hs := LooseList(f);
    forall b | b in Objects(g, hs) ensures |b.data| <= MAX_DECOMPRESSED {
      var i :| 0 <= i < |hs| && Objects(g, hs)[i] == b;
      assert hs[i] in hs;
    }
    PackBytesFit(c, Objects(g, hs));
  }

  /** Data above the cap that is not loose is not read at all. */
  lemma OversizedGone(c: Codec, f: Files, h: Digest, data: Bytes)
    requires Loose(h) !in f && |data| > MAX_DECOMPRESSED
    ensures !ReadsAs(c, f, h, data)
  {
    hide ParseIndex, Find;
  }

  /** With room in the ring cache for all that is loose, the condition on it is one
      on what it holds before the call: for every blob whose loose file is deleted,
      nothing or its content. */
  lemma RoomyRepackSafeExactly(cfg: Config, g: Contents, s: State, threshold: nat, n: nat, got: seq<Blob>, s': State)
    requires Packs(cfg.c, g, s)
    requires |s.blobCache| + |LooseList(s.files)| <= BLOB_CACHE_CAPACITY
    requires Next(cfg, s, Repack(threshold), Repacked(Ok(n), got), s') && n > 0
    ensures KeepsReads(cfg.c, s.files, s'.files) <==>
            forall h: Digest | Loose(h) in s.files && Loose(h) !in s'.files ::
              && (Held(s.blobCache, h).Some? ==> Held(s.blobCache, h).value.data == g(h))
              && Recoverable(cfg.c, g, s.files, PackName(cfg.c, ToPack(g, s)), h)
  {
    hide Next, Recoverable, PackName, ToPack, Packs, Held, KeepsReads;
    forall h: Digest | Loose(h) in s.files
      ensures Blob(h, g(h)) in ToPack(g, s) <==> (Held(s.blobCache, h).Some? ==> Held(s.blobCache, h).value.data == g(h))
    {
      RoomyToPack(g, s, h);
    }
    KeepsReadsExactly(cfg, g, s, threshold, n, got, s');
  }

  lemma RoomyToPack(g: Contents, s: State, h: Digest)
    requires |s.blobCache| + |LooseList(s.files)| <= BLOB_CACHE_CAPACITY && Loose(h) in s.files
    ensures Blob(h, g(h)) in ToPack(g, s) <==> (Held(s.blobCache, h).Some? ==> Held(s.blobCache, h).value.data == g(h))
  {
    hide Position, RingReads;
    var hs, got := LooseList(s.files), ToPack(g, s);
    StrictDistinct(hs, DigestKey);
    LooseHashesExact(s.files);
    RoomyReads(g, s.blobCache, hs);
    RingReadsHashes(g, s.blobCache, hs);
    var i :| 0 <= i < |hs| && hs[i] == h;
    HeldHash(s.blobCache, h);
    assert got[i] in got;
    if Blob(h, g(h)) in got {
      var j :| 0 <= j < |got| && got[j] == Blob(h, g(h));
      assert hs[j] == h;
    }
  }

  lemma HeldHash(ring: seq<Blob>, h: Digest)
    ensures Held(ring, h).Some? ==> Held(ring, h).value.hash == h
  {
  }

  /** Runs from a fresh store that never switch verification off have such a ring
      cache, whatever others do to the files, if all that was read is in play. */
  lemma RingTruthfulRun(cfg: Config, g: Contents, states: seq<State>, ops: seq<Op>, replies: seq<Reply>)
    requires IsRun(cfg, states, ops, replies)
    requires states[0].verify && states[0].blobCache == []
    requires forall i | 0 <= i < |ops| :: ops[i] != SetVerifyOnRead(false)
    requires forall i, b | 0 <= i < |ops| && b in Gained(ops[i], replies[i]) :: InPlay(cfg.c, g, b.data)
    ensures RingTruthful(cfg.c, g, states[|ops|].blobCache)
    ensures forall hs :: TrueFor(g, states[|ops|].blobCache, hs)
  {
    hide Next, Gained;
    var cache := states[|ops|].blobCache;
    RunSound(cfg, states, ops, replies);
    forall b | b in cache ensures b.data == g(b.hash) && cfg.c.hash(b.data) == b.hash {
      var j := CacheFromHistory(cfg, states, ops, replies, b);
    }
  }
}

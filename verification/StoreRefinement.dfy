/** The store refines a map from digests to bytes. */
module StoreRefinement {
  import opened Bytes
  import opened Codecs
  import opened Disks
  import opened Errors
  import opened GcConverge
  import opened GcModel
  import opened GcOutcome
  import opened GcPlanning
  import opened GcRewrite
  import opened GcSafety
  import opened Inventory
  import opened PackFiles
  import opened PackFormat
  import opened PackTheorems
  import opened RingCache
  import opened Sorting
  import opened Store
  import opened StoreModel

  /** Two maps from digests to bytes: the loose blobs and the packed ones. A blob
      may be in both. */
  datatype Model = Model(loose: map<Digest, Bytes>, packed: map<Digest, Bytes>)

  /** The map a store is to its users. */
  ghost function Blobs(m: Model): map<Digest, Bytes> {
    m.packed + m.loose
  }

  /** The maps a tree stands for: every digest present, with its content. */
  ghost function Abstract(g: Contents, f: Files): Model {
    Model(map h | h in LooseHashes(f) :: g(h), map h | h in PackedHashes(f) :: g(h))
  }

  lemma AbstractBlobs(g: Contents, f: Files)
    ensures Blobs(Abstract(g, f)) == map h | h in Present(f) :: g(h)
    ensures Blobs(Abstract(g, f)).Keys == Present(f)
  {
  }

  /** The pack cache is empty or what is on disk. */
  ghost predicate Coherent(s: State) {
    s.packCache.Some? ==> s.packCache.value == CacheOf(s.files)
  }

  ghost predicate RingTruthful(c: Codec, g: Contents, cache: seq<Blob>) {
    forall i | 0 <= i < |cache| :: cache[i].data == g(cache[i].hash) && c.hash(cache[i].data) == cache[i].hash
  }

  ghost predicate WithinCap(g: Contents, f: Files) {
    forall h | h in Present(f) :: |g(h)| <= MAX_DECOMPRESSED
  }

  ghost predicate Good(c: Codec, g: Contents, s: State) {
    && WellFormed(c, g, s.files)
    && AllIndexed(s.files)
    && WithinCap(g, s.files)
    && Unaliased(s.files)
    && Coherent(s)
    && RingTruthful(c, g, s.blobCache)
  }

  /** Data a call may put: in play, within the cap, and read back as written. */
  ghost predicate Acceptable(cfg: Config, g: Contents, data: Bytes) {
    InPlay(cfg.c, g, data) && |data| <= MAX_DECOMPRESSED && Storable(cfg.c, cfg.compress, data)
  }

  ghost function LooseList(f: Files): seq<Digest> {
    SortedDigests(LooseHashes(f))
  }

  /** What the refinement asks of each call: no hash collisions among the
      strings at hand, storable data, fewer than 2^32 loose blobs to pack, and no
      interference. */
  ghost predicate Reasonable(cfg: Config, g: Contents, s: State, op: Op) {
    match op
    case Put(data) => Acceptable(cfg, g, data)
    case PutNew(data) => Acceptable(cfg, g, data)
    case PutWithHash(data, h) => cfg.c.hash(data) == h ==> Acceptable(cfg, g, data)
    case Repack(_) =>
      && |LooseList(s.files)| < U32_SIZE
      && InPlay(cfg.c, g, CreatedIndex(cfg.c, Objects(g, LooseList(s.files))))
    case Sweep(live, o) => ReplacementsInPlay(cfg.c, g, PlanOf(s.files, live).packsToRewrite)
    case External(_) => false
    case _ => true
  }

  /** And of a sweep, no orphan under a replacement's name. */
  ghost predicate Admissible(cfg: Config, g: Contents, s: State, op: Op) {
    && Reasonable(cfg, g, s, op)
    && (op.Sweep? && op.options.rewritePartialPacks ==> NamesFree(cfg.c, g, s.files, op.live))
  }

  /** Some entries of a map, and no others. */
  ghost predicate Submap(m: map<Digest, Bytes>, m': map<Digest, Bytes>) {
    m.Keys <= m'.Keys && forall h | h in m :: m[h] == m'[h]
  }

  /** The calls on the two maps. Only what a read of an absent digest finds in the
      ring cache, which deletions of a repack are denied, and which packed copies a
      sweep drops, is left open. */
  ghost predicate AbstractNext(c: Codec, m: Model, op: Op, reply: Reply, m': Model) {
    match op
    case Put(data) =>
      reply == Stored(Ok(c.hash(data))) && m' == m.(loose := m.loose[c.hash(data) := data])
    case PutNew(data) =>
      var h := c.hash(data);
      if h in m.loose then reply == Stored(Err(AlreadyExists(h))) && m' == m
      else reply == Stored(Ok(h)) && m' == m.(loose := m.loose[h := data])
    case PutWithHash(data, h) =>
      if h in m.loose then reply == Done(None) && m' == m
      else if c.hash(data) != h then reply == Done(Some(HashMismatch(h, c.hash(data)))) && m' == m
      else reply == Done(None) && m' == m.(loose := m.loose[h := data])
    case Get(h) =>
      && m' == m
      && (h in Blobs(m) ==> reply == Data(Ok(Blobs(m)[h])))
      && (h !in Blobs(m) ==> reply == Data(Err(BlobNotFound(h))) || (reply.Data? && reply.data.Ok? && c.hash(reply.data.value) == h))
    case Delete(h) =>
      if h in m.loose then reply == Done(None) && m' == m.(loose := m.loose - {h})
      else reply == Done(Some(BlobNotFound(h))) && m' == m
    case Has(h) => reply == Found(h in Blobs(m)) && m' == m
    case Mark(roots) =>
      reply == Marked(Ok(LiveSet(roots * Blobs(m).Keys, SortedDigests(roots - Blobs(m).Keys)))) && m' == m
    case Repack(threshold) =>
      && reply.Repacked?
      && if |m.loose| <= threshold then reply.count == Ok(0) && m' == m
         else reply.count == Ok(|m.loose|) && m'.packed == m.packed + m.loose && Submap(m'.loose, m.loose)
    case Sweep(live, o) =>
      && reply == Swept(true)
      && if o.mode.DryRun? then m' == m else
           && m'.loose == (map h | h in m.loose && h in live :: m.loose[h])
           && Submap(m'.packed, m.packed)
           && Blobs(m).Keys * live <= Blobs(m').Keys
           && (o.rewritePartialPacks ==> Blobs(m').Keys == Blobs(m).Keys * live)
    case External(_) => true
    case InvalidatePackCache => reply == Done(None) && m' == m
    case SetVerifyOnRead(_) => reply == Done(None) && m' == m
  }

  /* Puts and deletes */

  lemma PutKeeps(cfg: Config, g: Contents, s: State, h: Digest, data: Bytes)
    requires Lawful(cfg.c) && Good(cfg.c, g, s) && Acceptable(cfg, g, data) && cfg.c.hash(data) == h
    ensures Good(cfg.c, g, Written(cfg, s, h, data))
    ensures var m := Abstract(g, s.files); Abstract(g, Written(cfg, s, h, data).files) == m.(loose := m.loose[h := data])
  {
    hide ParseIndex, ReadBlob, Hashes, HashesOf, Indexed, CacheOf, PackedHashes, LooseHashes, GoodPack, Decode, RingTruthful;
    var f, f' := s.files, Written(cfg, s, h, data).files;
    DecodeInvertsEncode(cfg.c, cfg.compress, data);
    forall t ensures SamePack(f, f', t) {
    }
    SamePacksWellFormed(cfg.c, g, f, f');
    LooseHashesExact(f);
    LooseHashesExact(f');
    assert LooseHashes(f') == LooseHashes(f) + {h};
    assert Present(f') == Present(f) + {h};
    assert GoodLoose(cfg.c, g, h, f'[Loose(h)]);
    forall k: Digest | Loose(k) in f' ensures GoodLoose(cfg.c, g, k, f'[Loose(k)]) {
      if k != h { assert GoodLoose(cfg.c, g, k, f[Loose(k)]); }
    }
  }

  /** Packs and what depends on them, in trees with the same packs. */
  lemma SamePacksWellFormed(c: Codec, g: Contents, f: Files, f': Files)
    requires forall t :: SamePack(f, f', t)
    ensures (forall t | Indexed(f, t) :: GoodPack(c, g, t, f[Pack(t)], f[Idx(t)])) ==>
            (forall t | Indexed(f', t) :: GoodPack(c, g, t, f'[Pack(t)], f'[Idx(t)]))
    ensures AllIndexed(f) ==> AllIndexed(f')
    ensures CacheOf(f) == CacheOf(f')
    ensures PackedHashes(f) == PackedHashes(f')
  {
    hide GoodPack, ParseIndex, CacheOf;
    forall t
      ensures Indexed(f, t) == Indexed(f', t) && HashesOf(f, t) == HashesOf(f', t)
      ensures Indexed(f, t) ==> f'[Pack(t)] == f[Pack(t)] && f'[Idx(t)] == f[Idx(t)]
    {
      SamePackHashes(f, f', t);
    }
    CacheOfExact(f);
    CacheOfExact(f');
    assert CacheOf(f).Keys == CacheOf(f').Keys;
    assert forall t | t in CacheOf(f) :: CacheOf(f)[t] == CacheOf(f')[t];
    assert CacheOf(f) == CacheOf(f');
    PackedHashesExact(f);
    PackedHashesExact(f');
    assert PackedHashes(f) == PackedHashes(f');
    if AllIndexed(f) {
      forall t | Paired(f', t) ensures Indexed(f', t) { assert SamePack(f, f', t); }
    }
  }

  lemma AlreadyThere(cfg: Config, g: Contents, s: State, h: Digest, data: Bytes)
    requires Good(cfg.c, g, s) && InPlay(cfg.c, g, data) && cfg.c.hash(data) == h
    requires Loose(h) in s.files
    ensures var m := Abstract(g, s.files); m == m.(loose := m.loose[h := data])
  {
    hide ParseIndex, ReadBlob, PackedHashes;
    LooseHashesExact(s.files);
  }

  lemma DeleteKeeps(c: Codec, g: Contents, s: State, h: Digest)
    requires Good(c, g, s) && Loose(h) in s.files
    ensures var s' := s.(files := s.files - {Loose(h)});
            && Good(c, g, s')
            && h in Abstract(g, s.files).loose
            && Abstract(g, s'.files) == Abstract(g, s.files).(loose := Abstract(g, s.files).loose - {h})
  {
    hide ParseIndex, ReadBlob, Hashes, HashesOf, Indexed, CacheOf, PackedHashes, LooseHashes, GoodPack, Decode, RingTruthful;
    var f, f' := s.files, s.files - {Loose(h)};
    forall t ensures SamePack(f, f', t) {
    }
    SamePacksWellFormed(c, g, f, f');
    LooseHashesExact(f);
    LooseHashesExact(f');
    assert LooseHashes(f') == LooseHashes(f) - {h};
    assert Present(f') == if h in PackedHashes(f) then Present(f) else Present(f) - {h};
    forall k: Digest | Loose(k) in f' ensures GoodLoose(c, g, k, f'[Loose(k)]) {
      assert GoodLoose(c, g, k, f[Loose(k)]);
    }
  }

  /* Gets */

  lemma LooseReads(c: Codec, g: Contents, s: State, h: Digest)
    requires Good(c, g, s) && Loose(h) in s.files
    ensures ReadLoose(c, s.verify, s.files[Loose(h)], h) == Ok(g(h)) && c.hash(g(h)) == h && h in Present(s.files)
  {
    hide ParseIndex, ReadBlob;
    assert GoodLoose(c, g, h, s.files[Loose(h)]);
    PresentExact(s.files);
  }

  lemma PackedReads(c: Codec, g: Contents, s: State, t: Name, h: Digest)
    requires Good(c, g, s) && t in CacheOf(s.files) && Find(CacheOf(s.files)[t], h).Some?
    ensures ReadPacked(c, s.files, t, h) == Ok(g(h)) && c.hash(g(h)) == h && h in Present(s.files)
  {
    hide Find, Decompress;
    CacheOfExact(s.files);
    FindExact(s.files[Idx(t)], h);
    PackContent(c, g, s.files, t, h);
    PresentExact(s.files);
  }

  lemma NotPacked(c: Codec, g: Contents, s: State, h: Digest)
    requires Good(c, g, s) && Loose(h) !in s.files
    requires forall t | t in CacheOf(s.files) :: Find(CacheOf(s.files)[t], h).None?
    ensures h !in Present(s.files)
  {
    hide Find, ParseIndex, ReadBlob;
    CacheOfExact(s.files);
    PresentExact(s.files);
    forall t | Indexed(s.files, t) ensures h !in HashesOf(s.files, t) {
      FindExact(s.files[Idx(t)], h);
    }
  }

  lemma GetKeeps(cfg: Config, g: Contents, s: State, h: Digest, r: Result<Bytes, CasError>, s': State)
    requires Lawful(cfg.c) && Good(cfg.c, g, s) && GetNext(cfg, s, h, r, s')
    ensures Good(cfg.c, g, s') && s'.files == s.files
    ensures h in Present(s.files) ==> r == Ok(g(h))
    ensures h !in Present(s.files) ==> r == Err(BlobNotFound(h)) || (r.Ok? && cfg.c.hash(r.value) == h)
  {
    hide ParseIndex, ReadBlob, Find, ReadLoose, ReadPacked, Position, CacheOf, WellFormed, AllIndexed, WithinCap, Present;
    match Position(s.blobCache, h) {
      case Some(i) =>
        PositionHit(s.blobCache, h);
      case None =>
        if Loose(h) in s.files {
          LooseReads(cfg.c, g, s, h);
        } else {
          MissReads(cfg, g, s, h);
        }
    }
  }

  lemma MissReads(cfg: Config, g: Contents, s: State, h: Digest)
    requires Good(cfg.c, g, s) && Loose(h) !in s.files
    ensures forall r, s1 | PackedNext(cfg, s, h, r, s1) ::
              && s1 == s.(packCache := Some(CacheOf(s.files)))
              && (if h in Present(s.files) then r == Ok(g(h)) && cfg.c.hash(g(h)) == h else r == Err(BlobNotFound(h)))
  {
    hide ParseIndex, ReadBlob, Find, ReadPacked, CacheOf, WellFormed, WithinCap, Present;
    forall t | t in CacheOf(s.files) && Find(CacheOf(s.files)[t], h).Some?
      ensures ReadPacked(cfg.c, s.files, t, h) == Ok(g(h)) && cfg.c.hash(g(h)) == h && h in Present(s.files)
    {
      PackedReads(cfg.c, g, s, t, h);
    }
    if forall t | t in CacheOf(s.files) :: Find(CacheOf(s.files)[t], h).None? {
      NotPacked(cfg.c, g, s, h);
    }
  }

  /* Repacking */

  /** Every present blob reads as its content, from the ring cache or from disk. */
  lemma {:induction false} GetsRead(cfg: Config, g: Contents, s: State, hs: seq<Digest>, got: seq<Blob>, error: Option<CasError>, s': State)
    requires Lawful(cfg.c) && Good(cfg.c, g, s) && GetsNext(cfg, s, hs, got, error, s')
    requires forall h | h in hs :: h in Present(s.files)
    ensures error.None? && got == Objects(g, hs)
    ensures Good(cfg.c, g, s') && s'.files == s.files
    decreases |hs|
  {
    hide GetNext, Good, Present;
    if hs != [] {
      var n := |hs| - 1;
      assert forall h | h in hs[..n] :: h in hs;
      var before, e, s1 :| GetsNext(cfg, s, hs[..n], before, e, s1) && ReadNext(cfg, hs[n], before, e, s1, got, error, s');
      GetsRead(cfg, g, s, hs[..n], before, e, s1);
      var r :| GetNext(cfg, s1, hs[n], r, s') && ReadAdds(before, hs[n], r, got, error);
      GetKeeps(cfg, g, s1, hs[n], r, s');
    }
  }

  lemma LoosePackable(c: Codec, g: Contents, f: Files)
    requires WellFormed(c, g, f) && WithinCap(g, f)
    requires 0 < |LooseList(f)| < U32_SIZE
    ensures Packable(c, Objects(g, LooseList(f)))
  {
    hide ParseIndex, ReadBlob, Present;
    var hs, objects := LooseList(f), Objects(g, LooseList(f));
    StrictDistinct(hs, DigestKey);
    LooseHashesExact(f);
    forall o | o in objects ensures |o.data| <= MAX_DECOMPRESSED && c.hash(o.data) == o.hash {
      var i :| 0 <= i < |objects| && objects[i] == o;
      assert hs[i] in hs;
      assert GoodLoose(c, g, hs[i], f[Loose(hs[i])]);
      PresentExact(f);
    }
  }

  /** The tree once a repack has written its pack. */
  ghost function Packed(c: Codec, g: Contents, f: Files): Files {
    ApplyAll(f, CreateSteps(c, Objects(g, LooseList(f))))
  }

  ghost predicate Repackable(c: Codec, g: Contents, f: Files) {
    && Lawful(c) && WellFormed(c, g, f) && WithinCap(g, f) && Unaliased(f)
    && 0 < |LooseList(f)| < U32_SIZE
    && InPlay(c, g, CreatedIndex(c, Objects(g, LooseList(f))))
  }

  /** Whether the name is new or already taken by the same pack, the written
      pack holds every loose blob and nothing readable changes. */
  lemma PackedFacts(c: Codec, g: Contents, f: Files)
    requires Repackable(c, g, f)
    ensures var f1, q := Packed(c, g, f), PackName(c, Objects(g, LooseList(f)));
            && WellFormed(c, g, f1) && Present(f1) == Present(f)
            && Indexed(f1, q) && HashesOf(f1, q) == LooseHashes(f)
            && (AllIndexed(f) ==> AllIndexed(f1))
            && (forall p | p != Pack(q) && p != Idx(q) :: SameAt(f, f1, p))
  {
    hide ParseIndex, ReadBlob, PackBytes, CreatedIndex, WellFormed, Present, GoodPack, LooseHashes;
    var objects := Objects(g, LooseList(f));
    var q, pack, idx := PackName(c, objects), PackBytes(c, objects), CreatedIndex(c, objects);
    LoosePackable(c, g, f);
    CreatedPackGood(c, g, LooseList(f));
    assert Elements(LooseList(f)) == LooseHashes(f);
    assert LooseHashes(f) <= Present(f) by { LoosePresent(f); }
    ApplyTwo(f, Write(Pack(q), pack), Write(Idx(q), idx));
    if Indexed(f, q) {
      SameNameSameIndex(c, g, f, q, idx);
    }
    PutPack(c, g, f, q, pack, idx);
  }

  lemma LoosePresent(f: Files)
    ensures LooseHashes(f) <= Present(f)
  {
  }

  /** An indexed pack under the name of an index in play has that index. */
  lemma SameNameSameIndex(c: Codec, g: Contents, f: Files, q: Name, idx: Bytes)
    requires WellFormed(c, g, f) && Indexed(f, q)
    requires InPlay(c, g, idx) && q == StemOf(c.hash(idx))
    ensures f[Idx(q)] == idx
  {
    hide ParseIndex, ReadBlob;
    assert GoodPack(c, g, q, f[Pack(q)], f[Idx(q)]);
    StemOfInjective(c.hash(f[Idx(q)]), c.hash(idx));
  }

  /** The tree after the deletions that happened. */
  lemma {:induction false} DeletionsEffect(f: Files, hs: seq<Digest>, failed: set<Digest>)
    ensures var f' := ApplyAll(f, Deletions(hs, failed));
            && Within(f', f)
            && (forall p | p in f && !(p.Loose? && p.h in hs) :: p in f' && f'[p] == f[p])
  {
    if hs != [] {
      var n := |hs| - 1;
      DeletionsEffect(f, hs[..n], failed);
      DeletionsAppend(hs[..n], hs[n], failed);
      assert hs == hs[..n] + [hs[n]];
      var f1 := ApplyAll(f, Deletions(hs[..n], failed));
      ApplyAllConcat(f, Deletions(hs[..n], failed), [Remove(Loose(hs[n]))]);
      ApplyOne(f1, Remove(Loose(hs[n])));
    }
  }

  /** Deleting loose blobs that the written pack holds changes nothing a reader
      sees. */
  lemma DeletionsHarmless(c: Codec, g: Contents, f: Files, hs: seq<Digest>, failed: set<Digest>)
    requires Repackable(c, g, f) && Elements(hs) <= LooseHashes(f)
    ensures var f' := ApplyAll(Packed(c, g, f), Deletions(hs, failed));
            && WellFormed(c, g, f') && Present(f') == Present(f)
            && (AllIndexed(f) ==> AllIndexed(f'))
            && Unaliased(f')
  {
    hide ParseIndex, ReadBlob, PackName, Packed, GoodPack, CacheOf, WellFormed, Present, PackedHashes, Objects;
    var f1, q := Packed(c, g, f), PackName(c, Objects(g, LooseList(f)));
    var f' := ApplyAll(f1, Deletions(hs, failed));
    PackedFacts(c, g, f);
    DeletionsEffect(f1, hs, failed);
    WithinWellFormed(c, g, f', f1);
    forall t ensures SamePack(f1, f', t) {
    }
    SamePacksWellFormed(c, g, f1, f');
    assert WellFormed(c, g, f') by { WithinWellFormed(c, g, f', f1); }
    forall h | h in Present(f1) ensures h in Present(f') {
      StillPresent(f1, f', hs, q, h);
    }
    forall p | p in f' ensures !p.Alias? {
      assert p.Alias? ==> p in f1 && SameAt(f, f1, p);
    }
  }

  lemma StillPresent(f1: Files, f': Files, hs: seq<Digest>, q: Name, h: Digest)
    requires forall p | p in f1 && !(p.Loose? && p.h in hs) :: p in f' && f'[p] == f1[p]
    requires forall t :: SamePack(f1, f', t)
    requires Elements(hs) <= HashesOf(f1, q) && h in Present(f1)
    ensures h in Present(f')
  {
    hide ParseIndex, Hashes;
    PresentExact(f1);
    PresentExact(f');
    if h in hs {
      assert h in Elements(hs);
      SamePackHashes(f1, f', q);
    } else if t :| Indexed(f1, t) && h in HashesOf(f1, t) {
      SamePackHashes(f1, f', t);
    }
  }

  /** Packing moves every loose blob into the packed map. */
  lemma RepackTiers(c: Codec, g: Contents, f: Files, hs: seq<Digest>, failed: set<Digest>)
    requires Repackable(c, g, f)
    ensures var f' := ApplyAll(Packed(c, g, f), Deletions(hs, failed));
            PackedHashes(f') == PackedHashes(f) + LooseHashes(f) && LooseHashes(f') <= LooseHashes(f)
  {
    hide ParseIndex, PackName, Packed, WellFormed, Present, PackedHashes, Objects, Indexed, HashesOf;
    var f1, q := Packed(c, g, f), PackName(c, Objects(g, LooseList(f)));
    var f' := ApplyAll(f1, Deletions(hs, failed));
    PackedFacts(c, g, f);
    DeletionsEffect(f1, hs, failed);
    LooseHashesExact(f);
    LooseHashesExact(f');
    PackedHashesExact(f);
    PackedHashesExact(f');
    assert HashesOf(f, q) <= LooseHashes(f) by { OldPackLists(c, g, f); }
    forall t ensures SamePack(f1, f', t) && Indexed(f', t) == Indexed(f1, t) && HashesOf(f', t) == HashesOf(f1, t) {
      SamePackHashes(f1, f', t);
    }
    forall t | t != q ensures Indexed(f1, t) == Indexed(f, t) && HashesOf(f1, t) == HashesOf(f, t) {
      SamePackHashes(f, f1, t);
    }
    forall h: Digest ensures h in PackedHashes(f') <==> h in PackedHashes(f) + LooseHashes(f) {
      if t :| Indexed(f, t) && h in HashesOf(f, t) {
        if t != q { assert Indexed(f', t) && h in HashesOf(f', t); }
      }
    }
    forall h | h in LooseHashes(f') ensures h in LooseHashes(f) {
      assert SameAt(f, f1, Loose(h));
    }
  }

  /** A pack that already had the name lists loose blobs only. */
  lemma OldPackLists(c: Codec, g: Contents, f: Files)
    requires Repackable(c, g, f)
    ensures HashesOf(f, PackName(c, Objects(g, LooseList(f)))) <= LooseHashes(f)
  {
    hide ParseIndex, ReadBlob, CreatedIndex, PackBytes, LooseHashes, WellFormed;
    var objects := Objects(g, LooseList(f));
    if Indexed(f, PackName(c, objects)) {
      SameNameSameIndex(c, g, f, PackName(c, objects), CreatedIndex(c, objects));
      LoosePackable(c, g, f);
      CreatedPackGood(c, g, LooseList(f));
      assert Elements(LooseList(f)) == LooseHashes(f);
    }
  }

  /** What a repack does in a good state. */
  lemma RepackDoes(cfg: Config, g: Contents, s: State, threshold: nat, r: Result<nat, CasError>, got: seq<Blob>, s': State) returns (failed: set<Digest>)
    requires Lawful(cfg.c) && Good(cfg.c, g, s) && Admissible(cfg, g, s, Repack(threshold))
    requires RepackNext(cfg, s, threshold, r, got, s')
    ensures |LooseHashes(s.files)| <= threshold ==> r == Ok(0) && s' == s
    ensures |LooseHashes(s.files)| > threshold ==>
              && r == Ok(|LooseHashes(s.files)|) && Repackable(cfg.c, g, s.files)
              && s'.files == ApplyAll(Packed(cfg.c, g, s.files), Deletions(LooseList(s.files), failed))
              && s'.packCache == None && RingTruthful(cfg.c, g, s'.blobCache)
  {
    hide ParseIndex, ReadBlob, WellFormed, AllIndexed, GetsNext, CreateSteps, Deletions, Present, PackName, CreatedIndex, Objects, RingTruthful, IsListing, LooseHashes, LooseList, Happened, ApplyAll;
    LooseListed(s.files);
    var steps :| RepackRun(cfg, s, threshold, r, got, steps, s');
    var listed :| IsListing(s.files, listed) && RepackListed(cfg, s, listed, threshold, r, got, steps, s');
    ListsLoose(s.files, listed);
    LoosePresent(s.files);
    failed := {};
    if |listed| > threshold {
      var error: Option<CasError>, s1 :| GetsNext(cfg, s, listed, got, error, s1) && RepackWrites(cfg, s, listed, error, s1, r, got, steps, s');
      GetsRead(cfg, g, s, listed, got, error, s1);
      var denied :| |denied| == |listed| && steps == CreateSteps(cfg.c, got) + Happened(ApplyAll(s.files, CreateSteps(cfg.c, got)), listed, denied);
      DeletionsOf(cfg.c, s.files, got, denied);
      failed := Denied(listed, denied);
      ApplyAllConcat(s.files, CreateSteps(cfg.c, got), Deletions(listed, failed));
    }
  }

  /** A completed repack: the content is unchanged; above the threshold, all that
      was loose is packed. */
  lemma RepackKeeps(cfg: Config, g: Contents, s: State, threshold: nat, r: Result<nat, CasError>, got: seq<Blob>, s': State)
    requires Lawful(cfg.c) && Good(cfg.c, g, s) && Admissible(cfg, g, s, Repack(threshold))
    requires RepackNext(cfg, s, threshold, r, got, s')
    ensures Good(cfg.c, g, s') && Present(s'.files) == Present(s.files)
    ensures |LooseHashes(s.files)| <= threshold ==> r == Ok(0) && s' == s
    ensures |LooseHashes(s.files)| > threshold ==>
              && r == Ok(|LooseHashes(s.files)|)
              && PackedHashes(s'.files) == PackedHashes(s.files) + LooseHashes(s.files)
              && LooseHashes(s'.files) <= LooseHashes(s.files)
  {
    hide WellFormed, AllIndexed, Deletions, Present, RingTruthful, LooseHashes, PackedHashes, Packed, Repackable, RepackNext, Admissible, LooseList, ApplyAll;
    var failed := RepackDoes(cfg, g, s, threshold, r, got, s');
    if |LooseHashes(s.files)| > threshold {
      assert Elements(LooseList(s.files)) <= LooseHashes(s.files) by { LooseListed(s.files); }
      DeletionsHarmless(cfg.c, g, s.files, LooseList(s.files), failed);
      RepackTiers(cfg.c, g, s.files, LooseList(s.files), failed);
    }
  }

  lemma LooseListed(f: Files)
    ensures Elements(LooseList(f)) == LooseHashes(f) && |LooseList(f)| == |LooseHashes(f)|
  {
  }

  /** Its deletions are those of the loose blobs that are not denied. */
  lemma DeletionsOf(c: Codec, f: Files, got: seq<Blob>, denied: seq<bool>)
    requires |denied| == |LooseList(f)|
    ensures Happened(ApplyAll(f, CreateSteps(c, got)), LooseList(f), denied) == Deletions(LooseList(f), Denied(LooseList(f), denied))
  {
    hide PackBytes, CreatedIndex, PackName;
    var w := CreateSteps(c, got);
    StrictDistinct(LooseList(f), DigestKey);
    LooseHashesExact(f);
    ApplyTwo(f, w[0], w[1]);
    assert w == [w[0], w[1]];
    HappenedIsDeletions(ApplyAll(f, w), LooseList(f), denied);
  }

  /** What a repack lists in a tree without aliases. */
  lemma ListsLoose(f: Files, listed: seq<Digest>)
    requires IsListing(f, listed) && Unaliased(f)
    ensures listed == LooseList(f)
    ensures forall h :: h in listed <==> h in LooseHashes(f)
    ensures Elements(listed) == LooseHashes(f)
  {
    UnaliasedListing(f, listed);
  }

  /* Sweeping */

  lemma SweepKeeps(c: Codec, g: Contents, s: State, live: set<Digest>, o: Options)
    requires Lawful(c) && Good(c, g, s)
    requires ReplacementsInPlay(c, g, PlanOf(s.files, live).packsToRewrite)
    requires o.rewritePartialPacks ==> NamesFree(c, g, s.files, live)
    ensures var outcome := SweepOutcome(c, s.files, live, o);
            var f' := ApplyAll(s.files, outcome.steps);
            && outcome.ok
            && WellFormed(c, g, f') && AllIndexed(f') && WithinCap(g, f') && Unaliased(f')
            && live * Present(s.files) <= Present(f') <= Present(s.files)
            && (o.mode.DryRun? ==> f' == s.files)
            && (!o.mode.DryRun? && o.rewritePartialPacks ==> Present(f') == live * Present(s.files))
            && (!o.mode.DryRun? ==> LooseHashes(f') == LooseHashes(s.files) * live && PackedHashes(f') <= PackedHashes(s.files))
  {
    hide LooseHashes, PackedHashes, ParseIndex, ReadBlob, WellFormed, AllIndexed, CacheOf, Present, PlanOf, NamesFree, SweepOutcome, RingTruthful, Unshadowed, PlanFails;
    UnaliasedHarmless(c, g, s.files, live, o);
    assert Sweepable(c, g, s.files, live);
    var steps := SweepSteps(c, s.files, live, o);
    AfterIsAll(c, s.files, live, o);
    assert After(c, s.files, live, o) == ApplyAll(s.files, steps);
    if o.mode.DryRun? {
      DryRunDoesNothing(c, s.files, live, o);
    } else {
      SweepShape(c, g, s.files, live, o);
      CrashSafe(c, g, s.files, live, o, |steps|);
      SweepLeaves(c, g, s.files, live, o);
      forall p | p in After(c, s.files, live, o) ensures !p.Alias? {
        AfterListed(c, g, s.files, live, o, p);
      }
      AfterTiers(c, g, s.files, live, o);
    }
  }

  lemma AfterTiers(c: Codec, g: Contents, f: Files, live: set<Digest>, o: Options)
    requires Sweepable(c, g, f, live) && !o.mode.DryRun?
    ensures LooseHashes(After(c, f, live, o)) == LooseHashes(f) * live
    ensures PackedHashes(After(c, f, live, o)) <= PackedHashes(f)
  {
    hide ParseIndex, PlanOf, NewName, After, Sweepable, Indexed, HashesOf, LooseHashes, PackedHashes, Partial, Healthy;
    var f' := After(c, f, live, o);
    LooseHashesExact(f);
    LooseHashesExact(f');
    PackedHashesExact(f);
    PackedHashesExact(f');
    forall h: Digest ensures h in LooseHashes(f') <==> h in LooseHashes(f) * live {
      AfterLoose(c, g, f, live, o, h);
    }
    PlanFacts(f, live);
    forall h | h in PackedHashes(f') ensures h in PackedHashes(f) {
      var s :| Indexed(f', s) && h in HashesOf(f', s);
      AfterPack(c, g, f, live, o, s);
      if r :| r in Executed(f, live, o) && s == NewName(c, g, r) && HashesOf(f', s) == Elements(r.keep) {
        PartialIndexed(f, live, r.pack);
      }
    }
  }

  lemma PartialIndexed(f: Files, live: set<Digest>, s: Name)
    ensures Partial(f, live, s) ==> Indexed(f, s)
  {
  }

  lemma UnaliasedHarmless(c: Codec, g: Contents, f: Files, live: set<Digest>, o: Options)
    requires Unaliased(f)
    ensures !PlanFails(f, live) && NoShadow(f, live)
    ensures (o.rewritePartialPacks ==> NamesFree(c, g, f, live)) ==> Harmless(c, g, f, live, o)
  {
    hide PlanOf, NamesFree, Indexed, HashesOf;
    AliasesLivePlans(f, live);
    ListedHashesExact(f);
  }

  lemma DryRunDoesNothing(c: Codec, f: Files, live: set<Digest>, o: Options)
    requires o.mode.DryRun? && !PlanFails(f, live)
    ensures SweepOutcome(c, f, live, o).ok && ApplyAll(f, SweepOutcome(c, f, live, o).steps) == f
  {
  }

  /* Asking */

  /** What `mark` takes for present is present. */
  lemma SeenIsPresent(s: State)
    requires Unaliased(s.files) && AllIndexed(s.files) && Coherent(s)
    ensures CacheAsked(s) == Some(CacheOf(s.files)) && Seen(s.files, CacheOf(s.files)) == Present(s.files)
  {
    hide ParseIndex;
    CacheOfExact(s.files);
    PackedHashesExact(s.files);
    assert forall p | p in s.files && (p.Loose? || p.Alias?) :: p.Loose?;
    assert ListedHashes(s.files) == LooseHashes(s.files);
  }

  /** `has_blob` answers by the map. */
  lemma HasExact(s: State, h: Digest)
    requires AllIndexed(s.files)
    ensures (Loose(h) in s.files || exists t :: t in CacheOf(s.files) && Find(CacheOf(s.files)[t], h).Some?) <==> h in Present(s.files)
  {
    hide Find, ParseIndex;
    CacheOfExact(s.files);
    PresentExact(s.files);
    forall t | Indexed(s.files, t) ensures Find(CacheOf(s.files)[t], h).Some? <==> h in HashesOf(s.files, t) {
      FindExact(s.files[Idx(t)], h);
    }
  }

  lemma HasRefines(c: Codec, g: Contents, s: State, h: Digest, present: bool, s': State)
    requires Good(c, g, s) && HasNext(s, h, present, s')
    ensures Good(c, g, s') && s'.files == s.files && (present <==> h in Blobs(Abstract(g, s.files)))
  {
    hide ParseIndex, WellFormed, AllIndexed, WithinCap, RingTruthful, Find, CacheOf, Present, Abstract;
    AbstractBlobs(g, s.files);
    SeenIsPresent(s);
    HasExact(s, h);
    PresentExact(s.files);
  }

  lemma MarkRefines(c: Codec, g: Contents, s: State, roots: set<Digest>, r: Result<LiveSet, CasError>, s': State)
    requires Good(c, g, s) && MarkNext(s, roots, r, s')
    ensures Good(c, g, s') && s'.files == s.files
    ensures var keys := Blobs(Abstract(g, s.files)).Keys; r == Ok(LiveSet(roots * keys, SortedDigests(roots - keys)))
  {
    hide ParseIndex, WellFormed, AllIndexed, WithinCap, RingTruthful, CacheOf, Present, Seen, SortedDigests, Abstract, Blobs;
    AbstractBlobs(g, s.files);
    SeenIsPresent(s);
  }

  /* All calls */

  lemma SweepRefines(cfg: Config, g: Contents, s: State, live: set<Digest>, o: Options, reply: Reply, s': State)
    requires Lawful(cfg.c) && Good(cfg.c, g, s) && Admissible(cfg, g, s, Sweep(live, o))
    requires Next(cfg, s, Sweep(live, o), reply, s')
    ensures Good(cfg.c, g, s')
    ensures AbstractNext(cfg.c, Abstract(g, s.files), Sweep(live, o), reply, Abstract(g, s'.files))
  {
    hide WellFormed, AllIndexed, CacheOf, Present, PlanOf, NamesFree, SweepOutcome, RingTruthful, WithinCap, Unaliased, ApplyAll, ReplacementsInPlay, Lawful, LooseHashes, PackedHashes;
    AbstractBlobs(g, s.files);
    AbstractBlobs(g, s'.files);
    SweepKeeps(cfg.c, g, s, live, o);
  }

  /** Calls that change no file and no blob of the ring cache. */
  lemma SwitchRefines(cfg: Config, g: Contents, s: State, op: Op, reply: Reply, s': State)
    requires Good(cfg.c, g, s) && Next(cfg, s, op, reply, s')
    requires op.InvalidatePackCache? || op.SetVerifyOnRead?
    ensures Good(cfg.c, g, s') && s'.files == s.files && reply == Done(None)
  {
    hide WellFormed, AllIndexed, CacheOf, WithinCap, RingTruthful;
  }

  lemma RepackRefines(cfg: Config, g: Contents, s: State, threshold: nat, reply: Reply, s': State)
    requires Lawful(cfg.c) && Good(cfg.c, g, s) && Admissible(cfg, g, s, Repack(threshold))
    requires Next(cfg, s, Repack(threshold), reply, s')
    ensures Good(cfg.c, g, s')
    ensures AbstractNext(cfg.c, Abstract(g, s.files), Repack(threshold), reply, Abstract(g, s'.files))
  {
    hide Good, RepackNext, LooseHashes, PackedHashes, Admissible, Lawful, Abstract, Submap;
    RepackKeeps(cfg, g, s, threshold, reply.count, reply.got, s');
    TierSizes(g, s.files);
    if |LooseHashes(s.files)| > threshold { MovedTiers(g, s.files, s'.files); }
  }

  lemma TierSizes(g: Contents, f: Files)
    ensures |Abstract(g, f).loose| == |LooseHashes(f)|
  {
    hide LooseHashes, PackedHashes;
    assert Abstract(g, f).loose.Keys == LooseHashes(f);
  }

  lemma MovedTiers(g: Contents, f: Files, f': Files)
    requires PackedHashes(f') == PackedHashes(f) + LooseHashes(f) && LooseHashes(f') <= LooseHashes(f)
    ensures var m, m' := Abstract(g, f), Abstract(g, f'); m'.packed == m.packed + m.loose && Submap(m'.loose, m.loose)
  {
    hide LooseHashes, PackedHashes;
  }

  predicate IsPut(op: Op) {
    op.Put? || op.PutNew? || op.PutWithHash?
  }

  lemma PutRefines(cfg: Config, g: Contents, s: State, op: Op, reply: Reply, s': State)
    requires Lawful(cfg.c) && Good(cfg.c, g, s) && Admissible(cfg, g, s, op) && IsPut(op)
    requires Next(cfg, s, op, reply, s')
    ensures Good(cfg.c, g, s')
    ensures AbstractNext(cfg.c, Abstract(g, s.files), op, reply, Abstract(g, s'.files))
  {
    hide Good, Written, Storable, LooseHashes, PackedHashes, Lawful;
    LooseHashesExact(s.files);
    var h := if op.PutWithHash? then op.hash else cfg.c.hash(op.data);
    if Loose(h) in s.files {
      if op.Put? { AlreadyThere(cfg, g, s, h, op.data); }
    } else if cfg.c.hash(op.data) == h {
      PutKeeps(cfg, g, s, h, op.data);
    }
  }

  lemma DeleteRefines(cfg: Config, g: Contents, s: State, h: Digest, reply: Reply, s': State)
    requires Good(cfg.c, g, s) && Next(cfg, s, Delete(h), reply, s')
    ensures Good(cfg.c, g, s')
    ensures AbstractNext(cfg.c, Abstract(g, s.files), Delete(h), reply, Abstract(g, s'.files))
  {
    hide Good, LooseHashes, PackedHashes;
    LooseHashesExact(s.files);
    if Loose(h) in s.files { DeleteKeeps(cfg.c, g, s, h); }
  }

  /** Calls that change no file. */
  lemma AskRefines(cfg: Config, g: Contents, s: State, op: Op, reply: Reply, s': State)
    requires Lawful(cfg.c) && Good(cfg.c, g, s) && Next(cfg, s, op, reply, s')
    requires op.Get? || op.Has? || op.Mark? || op.InvalidatePackCache? || op.SetVerifyOnRead?
    ensures Good(cfg.c, g, s')
    ensures AbstractNext(cfg.c, Abstract(g, s.files), op, reply, Abstract(g, s'.files))
  {
    hide Good, GetNext, HasNext, MarkNext, SortedDigests, Abstract, Blobs, Lawful;
    AbstractBlobs(g, s.files);
    match op {
      case Get(h) => GetKeeps(cfg, g, s, h, reply.data, s');
      case Has(h) => HasRefines(cfg.c, g, s, h, reply.present, s');
      case Mark(roots) => MarkRefines(cfg.c, g, s, roots, reply.marked, s');
      case _ => SwitchRefines(cfg, g, s, op, reply, s');
    }
  }

  /** Every admissible call keeps the store good and is a call on the maps. */
  lemma NextRefines(cfg: Config, g: Contents, s: State, op: Op, reply: Reply, s': State)
    requires Lawful(cfg.c) && Good(cfg.c, g, s) && Admissible(cfg, g, s, op)
    requires Next(cfg, s, op, reply, s')
    ensures Good(cfg.c, g, s')
    ensures AbstractNext(cfg.c, Abstract(g, s.files), op, reply, Abstract(g, s'.files))
  {
    hide Next, Good, AbstractNext, Abstract, Lawful, Acceptable, PlanOf, NamesFree, LooseList;
    match op {
      case Put(_) => PutRefines(cfg, g, s, op, reply, s');
      case PutNew(_) => PutRefines(cfg, g, s, op, reply, s');
      case PutWithHash(_, _) => PutRefines(cfg, g, s, op, reply, s');
      case Delete(h) => DeleteRefines(cfg, g, s, h, reply, s');
      case Repack(threshold) => RepackRefines(cfg, g, s, threshold, reply, s');
      case Sweep(live, o) => SweepRefines(cfg, g, s, live, o, reply, s');
      case _ => AskRefines(cfg, g, s, op, reply, s');
    }
  }

  /** Refinement over runs: from a good state, every admissible run stays good,
      so its pack cache is always empty or what is on disk, and its calls are
      calls on the abstract map; in particular every read of a digest in the map
      returns its exact bytes. */
  lemma {:induction false} RunRefines(cfg: Config, g: Contents, states: seq<State>, ops: seq<Op>, replies: seq<Reply>, i: nat)
    requires Lawful(cfg.c) && IsRun(cfg, states, ops, replies) && Good(cfg.c, g, states[0])
    requires forall j | 0 <= j < |ops| :: Admissible(cfg, g, states[j], ops[j])
    requires i <= |ops|
    ensures Good(cfg.c, g, states[i])
    ensures i < |ops| ==> AbstractNext(cfg.c, Abstract(g, states[i].files), ops[i], replies[i], Abstract(g, states[i + 1].files))
  {
    hide Next, AbstractNext, Good, Admissible;
    if i > 0 {
      RunRefines(cfg, g, states, ops, replies, i - 1);
      assert Next(cfg, states[i - 1], ops[i - 1], replies[i - 1], states[i]);
      NextRefines(cfg, g, states[i - 1], ops[i - 1], replies[i - 1], states[i]);
    }
    if i < |ops| {
      assert Next(cfg, states[i], ops[i], replies[i], states[i + 1]);
      NextRefines(cfg, g, states[i], ops[i], replies[i], states[i + 1]);
    }
  }
}

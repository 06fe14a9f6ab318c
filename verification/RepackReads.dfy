/** What a repack reads: loose files through the ring cache. */
module RepackReads {
  import opened Bytes
  import opened Codecs
  import opened Disks
  import opened Errors
  import opened Inventory
  import opened PackFormat
  import opened RingCache
  import opened Sorting
  import opened Store
  import opened StoreModel
  import opened StoreRefinement

  /** Reading loose blobs in turn, whose files hold their contents: what the reads
      return, and the ring cache they leave. A hit returns whatever is cached. */
  function RingReads(g: Contents, ring: seq<Blob>, hs: seq<Digest>): (seq<Blob>, seq<Blob>) {
    if hs == [] then ([], ring) else
      var h := hs[|hs| - 1];
      var (before, now) := RingReads(g, ring, hs[..|hs| - 1]);
      match Position(now, h)
      case Some(i) => (before + [now[i]], Promote(now, i))
      case None => (before + [Blob(h, g(h))], CacheInsert(now, Blob(h, g(h))))
  }

  /** The blobs a repack puts into its pack. */
  ghost function ToPack(g: Contents, s: State): seq<Blob> {
    RingReads(g, s.blobCache, LooseList(s.files)).0
  }

  lemma {:induction false} RingReadsHashes(g: Contents, ring: seq<Blob>, hs: seq<Digest>)
    ensures |RingReads(g, ring, hs).0| == |hs|
    ensures forall i | 0 <= i < |hs| :: RingReads(g, ring, hs).0[i].hash == hs[i]
  {
    if hs != [] {
      RingReadsHashes(g, ring, hs[..|hs| - 1]);
    }
  }

  /** Every loose file holds its content; packs may hold anything. */
  ghost predicate LooseTruthful(c: Codec, g: Contents, f: Files) {
    forall h: Digest | Loose(h) in f :: GoodLoose(c, g, h, f[Loose(h)])
  }

  /** In a tree whose loose files are good, the reads of a repack are these, and
      none fails, with verification on or off. */
  lemma {:induction false} GetsLoose(cfg: Config, g: Contents, s: State, hs: seq<Digest>, got: seq<Blob>, error: Option<CasError>, s': State)
    requires LooseTruthful(cfg.c, g, s.files) && GetsNext(cfg, s, hs, got, error, s')
    requires forall h | h in hs :: Loose(h) in s.files
    ensures error.None? && s'.files == s.files
    ensures (got, s'.blobCache) == RingReads(g, s.blobCache, hs)
    decreases |hs|
  {
    hide GetNext, LooseTruthful;
    if hs != [] {
      var n := |hs| - 1;
      assert forall h | h in hs[..n] :: h in hs;
      var before, e, s1 :| GetsNext(cfg, s, hs[..n], before, e, s1) && ReadNext(cfg, hs[n], before, e, s1, got, error, s');
      GetsLoose(cfg, g, s, hs[..n], before, e, s1);
      var r :| GetNext(cfg, s1, hs[n], r, s') && ReadAdds(before, hs[n], r, got, error);
      GetLoose(cfg, g, s1, hs[n], r, s');
    }
  }

  lemma GetLoose(cfg: Config, g: Contents, s: State, h: Digest, r: Result<Bytes, CasError>, s': State)
    requires LooseTruthful(cfg.c, g, s.files) && GetNext(cfg, s, h, r, s') && Loose(h) in s.files
    ensures r.Ok? && s'.files == s.files
    ensures match Position(s.blobCache, h)
            case Some(i) => s.blobCache[i] == Blob(h, r.value) && s'.blobCache == Promote(s.blobCache, i)
            case None => r.value == g(h) && s'.blobCache == CacheInsert(s.blobCache, Blob(h, g(h)))
  {
    hide ParseIndex, ReadBlob, Position, PackedNext;
    assert GoodLoose(cfg.c, g, h, s.files[Loose(h)]);
    if Position(s.blobCache, h).Some? {
      PositionHit(s.blobCache, h);
    }
  }

  /* A ring cache that is right about the blobs that are read */

  ghost predicate TrueFor(g: Contents, ring: seq<Blob>, hs: set<Digest>) {
    forall b | b in ring && b.hash in hs :: b.data == g(b.hash)
  }

  lemma {:induction false} TrueReads(g: Contents, ring: seq<Blob>, hs: seq<Digest>, all: set<Digest>)
    requires TrueFor(g, ring, all) && Elements(hs) <= all
    ensures RingReads(g, ring, hs).0 == Objects(g, hs)
    ensures TrueFor(g, RingReads(g, ring, hs).1, all)
  {
    hide Position;
    if hs != [] {
      var n := |hs| - 1;
      assert Elements(hs[..n]) <= Elements(hs) && hs[n] in Elements(hs);
      TrueReads(g, ring, hs[..n], all);
      var now := RingReads(g, ring, hs[..n]).1;
      if Position(now, hs[n]).Some? {
        PositionHit(now, hs[n]);
      }
    }
  }

  /** Then what is packed are the contents. */
  lemma ToPackTrue(g: Contents, s: State)
    requires TrueFor(g, s.blobCache, LooseHashes(s.files))
    ensures ToPack(g, s) == Objects(g, LooseList(s.files))
  {
    TrueReads(g, s.blobCache, LooseList(s.files), LooseHashes(s.files));
  }

  /* A ring cache with room for all that are read */

  lemma HeldAfterHit(ring: seq<Blob>, k: Digest, h: Digest)
    requires Position(ring, k).Some? && h != k
    ensures Held(Promote(ring, Position(ring, k).value), h) == Held(ring, h)
  {
    hide Position;
    var i := Position(ring, k).value;
    var after := Promote(ring, i);
    PositionHit(ring, k);
    forall j | 0 <= j < |after| ensures after[j] == ring[if j == 0 then i else if j <= i then j - 1 else j] {
    }
    match Position(ring, h) {
      case Some(j) =>
        PositionSome(ring, h);
        PositionUnique(after, h, if j < i then j + 1 else j);
      case None =>
        PositionNone(ring, h);
        HeldIsIn(after, h);
    }
  }

  lemma PositionSome(ring: seq<Blob>, h: Digest)
    requires Position(ring, h).Some?
    ensures var j := Position(ring, h).value; j < |ring| && ring[j].hash == h && forall i | 0 <= i < j :: ring[i].hash != h
  {
  }

  lemma HeldIsIn(ring: seq<Blob>, h: Digest)
    ensures Position(ring, h).Some? ==> exists b :: b in ring && b.hash == h
  {
  }

  lemma HeldAfterMiss(ring: seq<Blob>, b: Blob, h: Digest)
    requires |ring| < BLOB_CACHE_CAPACITY && h != b.hash
    ensures Held(CacheInsert(ring, b), h) == Held(ring, h)
  {
    assert ([b] + ring)[1..] == ring;
  }

  /** If nothing needs to be evicted, each read returns what the ring cache held
      for the digest before the first of them, and otherwise the content. */
  lemma {:induction false} RoomyReads(g: Contents, ring: seq<Blob>, hs: seq<Digest>)
    requires |ring| + |hs| <= BLOB_CACHE_CAPACITY
    requires forall i, j | 0 <= i < j < |hs| :: hs[i] != hs[j]
    ensures |RingReads(g, ring, hs).0| == |hs|
    ensures forall i | 0 <= i < |hs| ::
              RingReads(g, ring, hs).0[i] == match Held(ring, hs[i]) case Some(b) => b case None => Blob(hs[i], g(hs[i]))
    ensures var after := RingReads(g, ring, hs).1;
            && |after| <= |ring| + |hs|
            && forall h | h !in hs :: Held(after, h) == Held(ring, h)
  {
    hide Position, CacheInsert, Promote;
    if hs != [] {
      var n := |hs| - 1;
      var h := hs[n];
      RoomyReads(g, ring, hs[..n]);
      var now := RingReads(g, ring, hs[..n]).1;
      assert h !in hs[..n];
      RingSizes(now, h, Blob(h, g(h)));
      forall k | k !in hs ensures Held(RingReads(g, ring, hs).1, k) == Held(ring, k) {
        assert k !in hs[..n] && k != h;
        if Position(now, h).Some? { HeldAfterHit(now, h, k); } else { HeldAfterMiss(now, Blob(h, g(h)), k); }
      }
    }
  }

  lemma RingSizes(ring: seq<Blob>, h: Digest, b: Blob)
    ensures Position(ring, h).Some? ==> |Promote(ring, Position(ring, h).value)| == |ring|
    ensures |CacheInsert(ring, b)| <= |ring| + 1
  {
  }

  /* Repacks that run to their end */

  lemma ListingExists(f: Files)
    requires Unaliased(f)
    ensures IsListing(f, LooseList(f))
  {
    StrictIsSorted(LooseList(f), DigestKey);
    forall h: Digest ensures multiset(LooseList(f))[h] == |NamersOf(f, h)| {
      ListedOnce(f, h);
    }
  }

  lemma ListedOnce(f: Files, h: Digest)
    requires Unaliased(f)
    ensures multiset(LooseList(f))[h] == |NamersOf(f, h)|
  {
    var hs := LooseList(f);
    LooseHashesExact(f);
    StrictDistinct(hs, DigestKey);
    CountAtMostOnce(hs, h);
    if Loose(h) in f {
      assert NamersOf(f, h) == {Loose(h)};
      assert h in hs;
    } else {
      assert NamersOf(f, h) == {};
      assert h !in hs;
    }
  }

  lemma {:induction false} GetsExist(cfg: Config, g: Contents, s: State, hs: seq<Digest>)
    requires LooseTruthful(cfg.c, g, s.files) && forall h | h in hs :: Loose(h) in s.files
    ensures var (got, ring) := RingReads(g, s.blobCache, hs); GetsNext(cfg, s, hs, got, None, s.(blobCache := ring))
    decreases |hs|
  {
    hide Position, Promote, CacheInsert;
    if hs == [] {
      GetsNone(cfg, s);
    } else {
      var front, h := hs[..|hs| - 1], hs[|hs| - 1];
      assert hs == front + [h];
      GetsExist(cfg, g, s, front);
      var (before, now) := RingReads(g, s.blobCache, front);
      var (got, ring) := RingReads(g, s.blobCache, hs);
      var s1, s2 := s.(blobCache := now), s.(blobCache := ring);
      var r: Result<Bytes, CasError> := Ok(got[|got| - 1].data);
      GetExists(cfg, g, s1, h, r.value, s2);
      if Position(now, h).Some? { PositionHit(now, h); }
      GetsAppend(cfg, s, front, h, before, s1, r, got, None, s2);
    }
  }

  lemma GetExists(cfg: Config, g: Contents, s: State, h: Digest, d: Bytes, s': State)
    requires LooseTruthful(cfg.c, g, s.files) && Loose(h) in s.files
    requires match Position(s.blobCache, h)
             case Some(i) => d == s.blobCache[i].data && s' == s.(blobCache := Promote(s.blobCache, i))
             case None => d == g(h) && s' == s.(blobCache := CacheInsert(s.blobCache, Blob(h, g(h))))
    ensures GetNext(cfg, s, h, Ok(d), s')
  {
    hide ParseIndex, ReadBlob, Position, PackedNext, Promote, CacheInsert;
    assert GoodLoose(cfg.c, g, h, s.files[Loose(h)]);
  }

  /** A repack of good loose files can run to its end, whichever deletions are
      denied. */
  lemma RepackCanRun(cfg: Config, g: Contents, s: State, threshold: nat, denied: seq<bool>) returns (steps: seq<Step>, s': State)
    requires LooseTruthful(cfg.c, g, s.files) && Unaliased(s.files)
    requires |LooseList(s.files)| > threshold && |denied| == |LooseList(s.files)|
    ensures RepackRun(cfg, s, threshold, Ok(|LooseList(s.files)|), ToPack(g, s), steps, s')
    ensures steps == CreateSteps(cfg.c, ToPack(g, s)) + Deletions(LooseList(s.files), Denied(LooseList(s.files), denied))
    ensures s' == State(ApplyAll(s.files, steps), None, RingReads(g, s.blobCache, LooseList(s.files)).1, s.verify)
  {
    hide GetsNext, CreateSteps, IsListing, LooseList, LooseTruthful, RingReads, Happened;
    var c, f, hs, got := cfg.c, s.files, LooseList(s.files), ToPack(g, s);
    ListingExists(f);
    LooseHashesExact(f);
    AllLoose(f);
    GetsExist(cfg, g, s, hs);
    var packed, s1 := ApplyAll(f, CreateSteps(c, got)), s.(blobCache := RingReads(g, s.blobCache, hs).1);
    DeletionsOf(c, f, got, denied);
    steps := CreateSteps(c, got) + Deletions(hs, Denied(hs, denied));
    s' := s1.(files := ApplyAll(f, steps), packCache := None);
    assert steps == CreateSteps(c, got) + Happened(packed, hs, denied);
    assert RepackWrites(cfg, s, hs, None, s1, Ok(|hs|), got, steps, s');
    assert RepackListed(cfg, s, hs, threshold, Ok(|hs|), got, steps, s');
  }

  lemma AllLoose(f: Files)
    ensures forall h | h in LooseList(f) :: Loose(h) in f
  {
    LooseHashesExact(f);
  }
}

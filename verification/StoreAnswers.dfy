/** What each call answers, in every state: with damaged files, stale caches and
    aliases as well. */
module StoreAnswers {
  import opened Bytes
  import opened Codecs
  import opened Disks
  import opened Errors
  import opened GcModel
  import opened Inventory
  import opened PackFiles
  import opened PackFormat
  import opened PackTheorems
  import opened RingCache
  import opened Sorting
  import opened StoreLimits
  import opened StoreModel
  import opened StoreRuns

  /* Repack */

  /** The files that listing reports. */
  ghost function ListedFiles(f: Files): set<Path> {
    set p | p in f && (p.Loose? || p.Alias?)
  }

  lemma WithoutOne(hs: seq<Digest>, i: nat)
    requires i < |hs|
    ensures multiset(hs[..i] + hs[i + 1..]) == multiset(hs) - multiset{hs[i]}
    ensures |hs[..i] + hs[i + 1..]| == |hs| - 1
  {
    assert hs == hs[..i] + [hs[i]] + hs[i + 1..];
  }

  lemma NoneNamed(hs: seq<Digest>)
    requires forall h: Digest :: multiset(hs)[h] == |NamersAmong({}, h)|
    ensures forall h: Digest :: h !in hs
  {
    forall h: Digest ensures h !in hs {
      assert NamersAmong({}, h) == {};
      assert multiset(hs)[h] == 0;
    }
  }

  /** A list that names each digest once for every file has as many entries as
      there are files. */
  lemma {:induction false} ListedOncePerFile(ps: set<Path>, hs: seq<Digest>)
    requires forall p | p in ps :: p.Loose? || p.Alias?
    requires forall h: Digest :: multiset(hs)[h] == |NamersAmong(ps, h)|
    ensures |hs| == |ps|
    decreases ps
  {
    if ps == {} {
      NoneNamed(hs);
      FirstIn(hs);
    } else {
      var p :| p in ps;
      var rest := ps - {p};
      assert ps == rest + {p};
      assert p in NamersAmong(ps, p.h);
      assert multiset(hs)[p.h] > 0;
      var i :| 0 <= i < |hs| && hs[i] == p.h;
      var hs': seq<Digest> := hs[..i] + hs[i + 1..];
      WithoutOne(hs, i);
      forall h: Digest ensures multiset(hs')[h] == |NamersAmong(rest, h)| {
        NamersNext(rest, p, h);
      }
      ListedOncePerFile(rest, hs');
    }
  }

  lemma ListingSize(f: Files, listed: seq<Digest>)
    requires IsListing(f, listed)
    ensures |listed| == |ListedFiles(f)|
  {
    forall h: Digest ensures NamersOf(f, h) == NamersAmong(ListedFiles(f), h) {
    }
    ListedOncePerFile(ListedFiles(f), listed);
  }

  /** In any state, a repack that succeeds answers with the number of files that are
      listed if it is above the threshold, and then writes a pack; at or below the
      threshold it answers 0 and does nothing at all. */
  lemma RepackCounts(cfg: Config, s: State, threshold: nat, r: Result<nat, CasError>, got: seq<Blob>, steps: seq<Step>, s': State)
    requires RepackRun(cfg, s, threshold, r, got, steps, s')
    ensures var m := |ListedFiles(s.files)|;
            && (r.Ok? ==> r.value == if m > threshold then m else 0)
            && (m <= threshold ==> r.Ok? && steps == [] && got == [] && s' == s)
            && (m > threshold ==> (r.Ok? <==> steps != []))
  {
    hide GetsNext, IsListing, Happened;
    var listed :| IsListing(s.files, listed) && RepackListed(cfg, s, listed, threshold, r, got, steps, s');
    ListingSize(s.files, listed);
  }

  /* Puts and deletions */

  /** A put of new data answers Ok exactly when there is no file at the address of
      its digest; else it answers that the blob exists, and changes nothing. */
  lemma PutNewExactly(cfg: Config, s: State, data: Bytes, reply: Reply, s': State)
    requires Next(cfg, s, PutNew(data), reply, s')
    ensures var h := cfg.c.hash(data);
            && (reply == Stored(Ok(h)) <==> h !in LooseHashes(s.files))
            && (reply == Stored(Err(AlreadyExists(h))) <==> h in LooseHashes(s.files))
            && (h in LooseHashes(s.files) ==> s' == s)
            && (h !in LooseHashes(s.files) ==> LooseHashes(s'.files) == LooseHashes(s.files) + {h})
  {
    hide Encode;
    LooseHashesExact(s.files);
    LooseHashesExact(s'.files);
  }

  /** A put under an expected digest that is wrong is refused exactly when there is no
      file at the address: an existing file wins before the data is looked at. */
  lemma PutWithHashExactly(cfg: Config, s: State, data: Bytes, h: Digest, reply: Reply, s': State)
    requires Next(cfg, s, PutWithHash(data, h), reply, s')
    ensures reply == Done(None) <==> h in LooseHashes(s.files) || cfg.c.hash(data) == h
    ensures reply != Done(None) ==> reply == Done(Some(HashMismatch(h, cfg.c.hash(data)))) && s' == s
    ensures h in LooseHashes(s.files) ==> s' == s
    ensures reply == Done(None) ==> h in LooseHashes(s'.files)
  {
    hide Encode;
    LooseHashesExact(s.files);
    LooseHashesExact(s'.files);
  }

  /** A deletion takes the loose file, and answers that there is no blob exactly when
      there is none. */
  lemma DeleteExactly(cfg: Config, s: State, h: Digest, reply: Reply, s': State)
    requires Next(cfg, s, Delete(h), reply, s')
    ensures reply == Done(None) <==> h in LooseHashes(s.files)
    ensures reply != Done(None) ==> reply == Done(Some(BlobNotFound(h))) && s' == s
    ensures LooseHashes(s'.files) == LooseHashes(s.files) - {h}
    ensures forall p | p != Loose(h) :: SameAt(s.files, s'.files, p)
  {
    LooseHashesExact(s.files);
    LooseHashesExact(s'.files);
  }

  lemma {:induction false} SparedFileStays(cfg: Config, states: seq<State>, ops: seq<Op>, replies: seq<Reply>, h: Digest, i: nat, j: nat)
    requires IsRun(cfg, states, ops, replies) && i <= j <= |ops|
    requires Loose(h) in states[i].files && forall k | i <= k < j :: Spares(ops[k], h)
    ensures SameAt(states[i].files, states[j].files, Loose(h))
  {
    hide Next, Spares;
    if i < j {
      SparedFileStays(cfg, states, ops, replies, h, i, j - 1);
      assert Next(cfg, states[j - 1], ops[j - 1], replies[j - 1], states[j]);
      SparesLoose(cfg, states[j - 1], ops[j - 1], replies[j - 1], states[j], h);
    }
  }

  lemma SparesLoose(cfg: Config, s: State, op: Op, reply: Reply, s': State, h: Digest)
    requires Next(cfg, s, op, reply, s') && Spares(op, h) && Loose(h) in s.files
    ensures SameAt(s.files, s'.files, Loose(h))
  {
    hide GetNext, HasNext, MarkNext, SweepOutcome, Encode;
    match op {
      case Get(k) => GetKeepsFiles(cfg, s, k, reply.data, s');
      case Has(k) => HasKeepsFiles(s, k, reply.present, s');
      case Mark(roots) => MarkKeepsFiles(s, roots, reply.marked, s');
      case _ =>
    }
  }

  /** Of two puts of the same new data, with only calls between them that spare the
      file, the second is refused and changes nothing. */
  lemma PutNewTwice(cfg: Config, states: seq<State>, ops: seq<Op>, replies: seq<Reply>, data: Bytes, i: nat, j: nat)
    requires IsRun(cfg, states, ops, replies) && i < j < |ops|
    requires ops[i] == PutNew(data) && ops[j] == PutNew(data)
    requires forall k | i < k < j :: Spares(ops[k], cfg.c.hash(data))
    ensures replies[j] == Stored(Err(AlreadyExists(cfg.c.hash(data)))) && states[j + 1] == states[j]
  {
    hide Next, Spares;
    var h := cfg.c.hash(data);
    assert Next(cfg, states[i], ops[i], replies[i], states[i + 1]);
    assert Next(cfg, states[j], ops[j], replies[j], states[j + 1]);
    PutNewExactly(cfg, states[i], data, replies[i], states[i + 1]);
    PutNewExactly(cfg, states[j], data, replies[j], states[j + 1]);
    LooseHashesExact(states[i + 1].files);
    LooseHashesExact(states[j].files);
    SparedFileStays(cfg, states, ops, replies, h, i + 1, j);
  }

  /* Reads */

  /** A pack of the cache lists the digest. */
  ghost predicate CacheLists(cache: PackCache, h: Digest) {
    exists t :: t in cache && Find(cache[t], h).Some?
  }

  /** A read answers that there is no blob exactly when there is neither a ring cache
      entry nor a loose file, and the pack cache that it uses can be had and lists
      the digest nowhere. So damage, of loose files, records, packs or indexes, is
      never reported as absence. */
  lemma NotFoundExactly(cfg: Config, s: State, h: Digest, r: Result<Bytes, CasError>, s': State)
    requires GetNext(cfg, s, h, r, s')
    ensures r == Err(BlobNotFound(h)) <==>
            && (forall b | b in s.blobCache :: b.hash != h) && Loose(h) !in s.files
            && CacheAsked(s).Some? && !CacheLists(CacheAsked(s).value, h)
  {
    hide ParseIndex, ReadBlob, Find, Position, Decode, CacheOf, AllIndexed;
    CachedOrNot(s.blobCache, h);
    if Loose(h) in s.files { DecodeFailsExactly(cfg.c, s.files[Loose(h)]); }
  }

  lemma CachedOrNot(cache: seq<Blob>, h: Digest)
    ensures Position(cache, h).None? <==> forall b | b in cache :: b.hash != h
  {
    match Position(cache, h) {
      case Some(i) => assert cache[i] in cache;
      case None =>
        forall b | b in cache ensures b.hash != h {
          var i :| 0 <= i < |cache| && cache[i] == b;
        }
    }
  }

  /** A loose file is read as what it decodes to: an error of the decoder is passed on,
      and under verification so is a hash that is not the one asked for. */
  lemma LooseReadExactly(cfg: Config, s: State, h: Digest, r: Result<Bytes, CasError>, s': State)
    requires GetNext(cfg, s, h, r, s') && Position(s.blobCache, h).None? && Loose(h) in s.files
    ensures var read := Decode(cfg.c, s.files[Loose(h)]);
            && (r.Ok? <==> read.Ok? && (s.verify ==> cfg.c.hash(read.value) == h))
            && (r.Ok? ==> r == read)
            && (read.Err? ==> r == Err(read.error))
            && (read.Ok? && r.Err? ==> r == Err(HashMismatch(h, cfg.c.hash(read.value))))
  {
    hide Decode, Position;
  }

  /** A mismatch names the digest that was asked for and another, which the bytes on
      disk have; only loose reads under verification report it as such. */
  lemma MismatchMeans(cfg: Config, s: State, h: Digest, x: Digest, y: Digest, s': State)
    requires GetNext(cfg, s, h, Err(HashMismatch(x, y)), s')
    ensures x == h && y != h && s.verify && Loose(h) in s.files
    ensures exists d :: Decode(cfg.c, s.files[Loose(h)]) == Ok(d) && cfg.c.hash(d) == y
  {
    hide ParseIndex, ReadBlob, Find, Position, CacheOf, AllIndexed, Decode;
    if Loose(h) in s.files { DecodeFailsExactly(cfg.c, s.files[Loose(h)]); }
  }

  /** What a store that has just been opened may answer. */
  ghost predicate FreshAnswer(c: Codec, f: Files, h: Digest, r: Result<Bytes, CasError>) {
    if Loose(h) in f then r == ReadLoose(c, true, f[Loose(h)], h)
    else if !AllIndexed(f) then r.Err? && r.error.InPack?
    else if !CacheLists(CacheOf(f), h) then r == Err(BlobNotFound(h))
    else exists t :: t in CacheOf(f) && Find(CacheOf(f)[t], h).Some? && r == ReadPacked(c, f, t, h)
  }

  lemma FreshAnswers(cfg: Config, f: Files, h: Digest, r: Result<Bytes, CasError>)
    ensures (exists s' :: GetNext(cfg, State(f, None, [], true), h, r, s')) <==> FreshAnswer(cfg.c, f, h, r)
  {
    hide ParseIndex, ReadBlob, Find, Decode, CacheOf, ReadLoose, ReadPacked, AllIndexed;
    var s := State(f, None, [], true);
    assert Position(s.blobCache, h) == None;
    if FreshAnswer(cfg.c, f, h, r) {
      var s1 := if Loose(h) in f || !AllIndexed(f) then s else s.(packCache := Some(CacheOf(f)));
      assert Loose(h) !in f ==> PackedNext(cfg, s, h, r, s1);
      var s' := if r.Ok? then s1.(blobCache := CacheInsert(s1.blobCache, Blob(h, r.value))) else s1;
      assert GetNext(cfg, s, h, r, s');
    }
  }

  lemma ListedByCache(f: Files, h: Digest)
    requires AllIndexed(f)
    ensures forall t :: t in CacheOf(f) && Find(CacheOf(f)[t], h).Some? <==> Indexed(f, t) && h in HashesOf(f, t)
  {
    hide ParseIndex, Find;
    CacheOfExact(f);
    forall t | Indexed(f, t) ensures Find(CacheOf(f)[t], h).Some? <==> h in HashesOf(f, t) {
      FindExact(f[Idx(t)], h);
    }
  }

  lemma PackedAnswer(c: Codec, f: Files, t: Name, h: Digest)
    requires Indexed(f, t) && h in HashesOf(f, t)
    ensures var read := ReadBlob(c, f[Pack(t)], ParseIndex(f[Idx(t)]).value, h);
            ReadPacked(c, f, t, h) == if read.Ok? then Ok(read.value) else Err(InPack(read.error))
  {
    hide Find, ReadBlob;
    FindExact(f[Idx(t)], h);
  }

  lemma FreshReads(c: Codec, f: Files, h: Digest, d: Bytes)
    ensures ReadsAs(c, f, h, d) <==> forall r | FreshAnswer(c, f, h, r) :: r == Ok(d)
  {
    hide ParseIndex, ReadBlob, Find, Decode, CacheOf, Indexed, HashesOf, ReadPacked;
    if Loose(h) in f {
      assert FreshAnswer(c, f, h, ReadLoose(c, true, f[Loose(h)], h));
    } else if !AllIndexed(f) {
      assert FreshAnswer(c, f, h, Err(InPack(PackIo)));
    } else {
      ListedByCache(f, h);
      if !CacheLists(CacheOf(f), h) {
        assert FreshAnswer(c, f, h, Err(BlobNotFound(h)));
      } else {
        PackedReadsAs(c, f, h, d);
      }
    }
  }

  lemma PackedReadsAs(c: Codec, f: Files, h: Digest, d: Bytes)
    requires Loose(h) !in f && AllIndexed(f) && CacheLists(CacheOf(f), h)
    ensures ReadsAs(c, f, h, d) <==> forall r | FreshAnswer(c, f, h, r) :: r == Ok(d)
  {
    hide ParseIndex, ReadBlob, Find, CacheOf, HashesOf, ReadPacked, AllIndexed;
    ListedByCache(f, h);
    forall t | Indexed(f, t) && h in HashesOf(f, t)
      ensures FreshAnswer(c, f, h, ReadPacked(c, f, t, h))
      ensures ReadPacked(c, f, t, h) == Ok(d) <==> ReadBlob(c, f[Pack(t)], ParseIndex(f[Idx(t)]).value, h) == Ok(d)
    {
      PackedAnswer(c, f, t, h);
    }
  }

  /** What the theorems call a read is what `get_blob` answers: a store that has just
      been opened, whichever pack it consults, answers with these bytes and nothing
      else. */
  lemma ReadsAsExactly(cfg: Config, f: Files, h: Digest, d: Bytes)
    ensures ReadsAs(cfg.c, f, h, d) <==>
            forall r, s' | GetNext(cfg, State(f, None, [], true), h, r, s') :: r == Ok(d)
  {
    hide ReadsAs, FreshAnswer, GetNext;
    forall r ensures (exists s' :: GetNext(cfg, State(f, None, [], true), h, r, s')) <==> FreshAnswer(cfg.c, f, h, r) {
      FreshAnswers(cfg, f, h, r);
    }
    forall r, s' | GetNext(cfg, State(f, None, [], true), h, r, s') ensures FreshAnswer(cfg.c, f, h, r) {
      FreshAnswers(cfg, f, h, r);
    }
    FreshReads(cfg.c, f, h, d);
  }

  /* Asking */

  /** In any state, `has_blob` of a digest that is not loose is true exactly if the
      pack cache it uses can be had and lists the digest: with an index that does not
      load, and no cache held, it is false. */
  lemma HasExactly(s: State, h: Digest, present: bool, s': State)
    requires HasNext(s, h, present, s')
    ensures present <==> Loose(h) in s.files || (CacheAsked(s).Some? && CacheLists(CacheAsked(s).value, h))
    ensures s'.files == s.files && s'.blobCache == s.blobCache
    ensures Loose(h) !in s.files && s.packCache.None? ==> (present <==> AllIndexed(s.files) && h in PackedHashes(s.files))
  {
    hide ParseIndex, Find, CacheOf, AllIndexed, Indexed, HashesOf;
    PackedHashesExact(s.files);
    if AllIndexed(s.files) { ListedByCache(s.files, h); }
  }

  /** Marking fails exactly if no cache is held and some index does not load. */
  lemma MarkFailsExactly(s: State, roots: set<Digest>, r: Result<LiveSet, CasError>, s': State)
    requires MarkNext(s, roots, r, s')
    ensures r.Err? <==> s.packCache.None? && !AllIndexed(s.files)
  {
    hide AllIndexed, Seen, SortedDigests;
  }

  /* The pack cache */

  /** A cache that is held is used, right or wrong, until it is dropped: by
      invalidation, or by a repack or sweep. */
  lemma HeldCacheStays(cfg: Config, s: State, op: Op, reply: Reply, s': State)
    requires Next(cfg, s, op, reply, s') && s.packCache.Some?
    requires !op.InvalidatePackCache? && !op.Repack? && !op.Sweep?
    ensures s'.packCache == s.packCache
  {
    hide ReadLoose, ReadPacked, Position, AllIndexed, Encode, Seen, SortedDigests;
  }

  /** A lookup in the packs, found or not, holds the cache it has used. */
  lemma LookupHoldsCache(cfg: Config, s: State, h: Digest, r: Result<Bytes, CasError>, s': State)
    requires GetNext(cfg, s, h, r, s') && Position(s.blobCache, h).None? && Loose(h) !in s.files
    ensures s'.packCache == CacheAsked(s)
  {
    hide ReadPacked, Position, AllIndexed;
  }

  /** After invalidation a lookup sees what is on disk, as a store does that has just
      been opened. */
  lemma InvalidatedReadsFresh(cfg: Config, s: State, s1: State, h: Digest, r: Result<Bytes, CasError>, s2: State)
    requires Next(cfg, s, InvalidatePackCache, Done(None), s1) && GetNext(cfg, s1, h, r, s2)
    requires Position(s.blobCache, h).None? && s.verify
    ensures FreshAnswer(cfg.c, s.files, h, r)
  {
    hide ParseIndex, ReadBlob, Find, Decode, CacheOf, ReadLoose, ReadPacked, AllIndexed, Position;
  }

  /** The packs that the cache names for the digest have lost their indexes. */
  ghost predicate LostIndexes(cache: PackCache, f: Files, h: Digest) {
    forall t | t in cache && Find(cache[t], h).Some? :: Idx(t) !in f
  }

  /** A lookup through a stale cache reloads the index of the pack it names, so it
      never returns bytes that are no longer there: it fails with an error of the pack,
      or reads what the files now hold. */
  lemma StaleLookup(cfg: Config, s: State, h: Digest, r: Result<Bytes, CasError>, s': State)
    requires GetNext(cfg, s, h, r, s') && Position(s.blobCache, h).None? && Loose(h) !in s.files && s.packCache.Some?
    ensures r.Ok? ==> exists t :: t in s.packCache.value && Indexed(s.files, t) && h in HashesOf(s.files, t)
    ensures CacheLists(s.packCache.value, h) && LostIndexes(s.packCache.value, s.files, h) ==> r == Err(InPack(PackIo))
  {
    hide ReadBlob, Find, Position, AllIndexed;
    if r.Ok? {
      var t :| t in s.packCache.value && Find(s.packCache.value[t], h).Some? && r == ReadPacked(cfg.c, s.files, t, h);
      FindExact(s.files[Idx(t)], h);
    }
  }

  /** A repack that fails does so with the error of a read of a listed digest, and
      leaves all files alone. */
  lemma {:induction false} GetsFailAsRead(cfg: Config, s: State, hs: seq<Digest>, got: seq<Blob>, e: CasError, s': State)
      returns (h: Digest, s1: State, s2: State)
    requires GetsNext(cfg, s, hs, got, Some(e), s')
    ensures h in hs && GetNext(cfg, s1, h, Err(e), s2) && s1.files == s.files && s1.verify == s.verify
    decreases |hs|
  {
    hide GetNext;
    var n := |hs| - 1;
    assert hs == hs[..n] + [hs[n]];
    var before, e0, s0 :| GetsNext(cfg, s, hs[..n], before, e0, s0) && ReadNext(cfg, hs[n], before, e0, s0, got, Some(e), s');
    if e0.Some? {
      h, s1, s2 := GetsFailAsRead(cfg, s, hs[..n], before, e, s0);
    } else {
      var r :| GetNext(cfg, s0, hs[n], r, s') && ReadAdds(before, hs[n], r, got, Some(e));
      GetsKeepFiles(cfg, s, hs[..n], before, e0, s0);
      GetsKeepVerify(cfg, s, hs[..n], before, e0, s0);
      h, s1, s2 := hs[n], s0, s';
    }
  }

  lemma {:induction false} GetsKeepVerify(cfg: Config, s: State, hs: seq<Digest>, got: seq<Blob>, error: Option<CasError>, s': State)
    requires GetsNext(cfg, s, hs, got, error, s')
    ensures s'.verify == s.verify
    decreases |hs|
  {
    hide GetNext;
    if hs != [] {
      var n := |hs| - 1;
      var before, e, s1 :| GetsNext(cfg, s, hs[..n], before, e, s1) && ReadNext(cfg, hs[n], before, e, s1, got, error, s');
      GetsKeepVerify(cfg, s, hs[..n], before, e, s1);
      forall r | GetNext(cfg, s1, hs[n], r, s') ensures s'.verify == s1.verify {
        GetKeepsVerify(cfg, s1, hs[n], r, s');
      }
    }
  }

  lemma GetKeepsVerify(cfg: Config, s: State, h: Digest, r: Result<Bytes, CasError>, s': State)
    requires GetNext(cfg, s, h, r, s')
    ensures s'.verify == s.verify
  {
    hide ReadLoose, ReadPacked, Position, AllIndexed;
  }

  lemma RepackFailsAsRead(cfg: Config, s: State, threshold: nat, e: CasError, got: seq<Blob>, s': State) returns (h: Digest, s1: State, s2: State)
    requires RepackNext(cfg, s, threshold, Err(e), got, s')
    ensures h in ListedHashes(s.files) && GetNext(cfg, s1, h, Err(e), s2) && s1.files == s.files && s1.verify == s.verify
    ensures s'.files == s.files
  {
    hide GetNext, GetsNext, IsListing, ListedHashes, Happened;
    var steps :| RepackRun(cfg, s, threshold, Err(e), got, steps, s');
    var listed :| IsListing(s.files, listed) && RepackListed(cfg, s, listed, threshold, Err(e), got, steps, s');
    ListingElements(s.files, listed);
    var error: Option<CasError>, s0 :| GetsNext(cfg, s, listed, got, error, s0) && RepackWrites(cfg, s, listed, error, s0, Err(e), got, steps, s');
    h, s1, s2 := GetsFailAsRead(cfg, s, listed, got, e, s0);
    GetsKeepFiles(cfg, s, listed, got, error, s0);
    assert h in Elements(listed);
  }
}

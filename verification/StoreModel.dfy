/** The blob store as a transition system: what each call may do to the files
    and the two caches, and what it answers (src/store.rs). */
module StoreModel {
  import opened Bytes
  import opened Codecs
  import opened Disks
  import opened Errors
  import opened GcModel
  import opened Inventory
  import opened PackFiles
  import opened PackFormat

  const BLOB_CACHE_CAPACITY := 1024

  datatype Config = Config(c: Codec, compress: bool)

  datatype State = State(
    files: Files,
    packCache: Option<PackCache>,
    blobCache: seq<Blob>,
    verify: bool)

  /* The ring cache */

  /** The first position of a digest. */
  function Position(cache: seq<Blob>, h: Digest): (r: Option<nat>)
    ensures r.Some? ==> r.value < |cache| && cache[r.value].hash == h && forall i | 0 <= i < r.value :: cache[i].hash != h
    ensures r.None? ==> forall i | 0 <= i < |cache| :: cache[i].hash != h
  {
    if cache == [] then None
    else if cache[0].hash == h then Some(0)
    else match Position(cache[1..], h)
      case None => None
      case Some(i) => Some(i + 1)
  }

  /** What the ring cache answers for a digest. */
  function Held(cache: seq<Blob>, h: Digest): Option<Blob> {
    match Position(cache, h)
    case Some(i) => Some(cache[i])
    case None => None
  }

  /** A hit moves its entry to the front. */
  function Promote(cache: seq<Blob>, i: nat): seq<Blob>
    requires i < |cache|
  {
    [cache[i]] + (cache[..i] + cache[i + 1..])
  }

  /** A miss inserts at the front, dropping the last entry of a full cache. */
  function CacheInsert(cache: seq<Blob>, b: Blob): seq<Blob> {
    [b] + if |cache| >= BLOB_CACHE_CAPACITY then cache[..|cache| - 1] else cache
  }

  /* Reading */

  function ReadLoose(c: Codec, verify: bool, raw: Bytes, h: Digest): Result<Bytes, CasError> {
    match Decode(c, raw)
    case Err(e) => Err(e)
    case Ok(d) => if verify && c.hash(d) != h then Err(HashMismatch(h, c.hash(d))) else Ok(d)
  }

  /** Reading from a pack that the cache says holds the digest: the index is
      loaded afresh, and either file may have changed or gone since. */
  function ReadPacked(c: Codec, f: Files, s: Name, h: Digest): Result<Bytes, CasError> {
    if Idx(s) !in f then Err(InPack(PackIo)) else
      match ParseIndex(f[Idx(s)])
      case Err(e) => Err(InPack(e))
      case Ok(index) =>
        if Find(index, h).None? then Err(InPack(MissingFromPack(h)))
        else if Pack(s) !in f then Err(InPack(PackIo))
        else match ReadBlob(c, f[Pack(s)], index, h)
          case Err(e) => Err(InPack(e))
          case Ok(d) => Ok(d)
  }

  /** The pack cache a lookup sees: the one held, or all indexes on disk. */
  ghost predicate Loads(s: State, cache: PackCache) {
    match s.packCache
    case Some(held) => cache == held
    case None => AllIndexed(s.files) && cache == CacheOf(s.files)
  }

  /** `get_blob_packed`: any pack whose cached index has the digest may be the
      one that is consulted. */
  ghost predicate PackedNext(cfg: Config, s: State, h: Digest, r: Result<Bytes, CasError>, s': State) {
    if s.packCache.None? && !AllIndexed(s.files) then
      s' == s && r.Err? && r.error.InPack?
    else
      var cache := if s.packCache.Some? then s.packCache.value else CacheOf(s.files);
      && s' == s.(packCache := Some(cache))
      && if forall t | t in cache :: Find(cache[t], h).None? then
           r == Err(BlobNotFound(h))
         else
           exists t | t in cache && Find(cache[t], h).Some? :: r == ReadPacked(cfg.c, s.files, t, h)
  }

  /** `get_blob`: ring cache, then loose file, then packs; what was read from
      disk enters the ring cache. */
  ghost predicate GetNext(cfg: Config, s: State, h: Digest, r: Result<Bytes, CasError>, s': State) {
    match Position(s.blobCache, h)
    case Some(i) =>
      r == Ok(s.blobCache[i].data) && s' == s.(blobCache := Promote(s.blobCache, i))
    case None =>
      exists s1: State ::
        && (if Loose(h) in s.files then
              s1 == s && r == ReadLoose(cfg.c, s.verify, s.files[Loose(h)], h)
            else
              PackedNext(cfg, s, h, r, s1))
        && s' == if r.Ok? then s1.(blobCache := CacheInsert(s1.blobCache, Blob(h, r.value))) else s1
  }

  /* Repacking */

  /** Reads one after the other, up to the first that fails. */
  ghost predicate GetsNext(cfg: Config, s: State, hs: seq<Digest>, got: seq<Blob>, error: Option<CasError>, s': State)
    decreases |hs|
  {
    if hs == [] then
      got == [] && error == None && s' == s
    else
      var n := |hs| - 1;
      exists before, e, s1 :: GetsNext(cfg, s, hs[..n], before, e, s1) && ReadNext(cfg, hs[n], before, e, s1, got, error, s')
  }

  ghost predicate ReadNext(cfg: Config, h: Digest, before: seq<Blob>, e: Option<CasError>, s: State,
                           got: seq<Blob>, error: Option<CasError>, s': State) {
    if e.Some? then
      got == before && error == e && s' == s
    else
      exists r :: GetNext(cfg, s, h, r, s') && ReadAdds(before, h, r, got, error)
  }

  predicate ReadAdds(before: seq<Blob>, h: Digest, r: Result<Bytes, CasError>, got: seq<Blob>, error: Option<CasError>) {
    match r
    case Ok(d) => got == before + [Blob(h, d)] && error == None
    case Err(e) => got == before && error == Some(e)
  }

  /** The loose deletions of a repack; those in `failed` did not happen. */
  function Deletions(hs: seq<Digest>, failed: set<Digest>): seq<Step> {
    if hs == [] then [] else
      Deletions(hs[..|hs| - 1], failed) + if hs[|hs| - 1] in failed then [] else [Remove(Loose(hs[|hs| - 1]))]
  }

  function RepackSteps(c: Codec, objects: seq<Blob>, hs: seq<Digest>, failed: set<Digest>): seq<Step> {
    CreateSteps(c, objects) + Deletions(hs, failed)
  }

  /** The deletions of a repack that do something: those that are not denied and
      find the file still there. A digest may be listed twice, or without one. */
  ghost function Happened(f: Files, hs: seq<Digest>, denied: seq<bool>): seq<Step>
    requires |denied| == |hs|
    decreases |hs|
  {
    if hs == [] then [] else
      var n := |hs| - 1;
      var before := Happened(f, hs[..n], denied[..n]);
      if denied[n] || Loose(hs[n]) !in ApplyAll(f, before) then before else before + [Remove(Loose(hs[n]))]
  }

  /** `repack` and its effects in order: every listed digest is read, so an alias
      is packed if some copy of its digest can be read, and fails the call if none
      can; then the pack, then its index, then the deletions. */
  ghost predicate RepackRun(cfg: Config, s: State, threshold: nat, r: Result<nat, CasError>, got: seq<Blob>, steps: seq<Step>, s': State) {
    exists listed :: IsListing(s.files, listed) && RepackListed(cfg, s, listed, threshold, r, got, steps, s')
  }

  ghost predicate RepackListed(cfg: Config, s: State, listed: seq<Digest>, threshold: nat, r: Result<nat, CasError>,
                               got: seq<Blob>, steps: seq<Step>, s': State) {
    if |listed| <= threshold then
      s' == s && r == Ok(0) && got == [] && steps == []
    else
      exists error, s1 :: GetsNext(cfg, s, listed, got, error, s1) && RepackWrites(cfg, s, listed, error, s1, r, got, steps, s')
  }

  /** What follows the reads. */
  ghost predicate RepackWrites(cfg: Config, s: State, listed: seq<Digest>, error: Option<CasError>, s1: State,
                               r: Result<nat, CasError>, got: seq<Blob>, steps: seq<Step>, s': State) {
    if error.Some? then
      r == Err(error.value) && s' == s1 && steps == []
    else
      && r == Ok(|listed|)
      && (exists denied ::
            && |denied| == |listed|
            && steps == CreateSteps(cfg.c, got) + Happened(ApplyAll(s.files, CreateSteps(cfg.c, got)), listed, denied))
      && s' == s1.(files := ApplyAll(s.files, steps), packCache := None)
  }

  ghost predicate RepackNext(cfg: Config, s: State, threshold: nat, r: Result<nat, CasError>, got: seq<Blob>, s': State) {
    exists steps :: RepackRun(cfg, s, threshold, r, got, steps, s')
  }

  /* Asking */

  /** The cache that asking for packed blobs leaves and uses, if it can be loaded. */
  ghost function CacheAsked(s: State): Option<PackCache> {
    if s.packCache.Some? then s.packCache
    else if AllIndexed(s.files) then Some(CacheOf(s.files))
    else None
  }

  /** `has_blob`: a loose file, or a pack of the cache, without reading it. An
      index that does not load reads as absence. */
  ghost predicate HasNext(s: State, h: Digest, present: bool, s': State) {
    if Loose(h) in s.files then present && s' == s
    else
      match CacheAsked(s)
      case None => !present && s' == s
      case Some(cache) =>
        && s' == s.(packCache := Some(cache))
        && (present <==> exists t :: t in cache && Find(cache[t], h).Some?)
  }

  /** The result of `mark`. */
  datatype LiveSet = LiveSet(live: set<Digest>, missing: seq<Digest>)

  /** What `mark` takes for present: listed, or in the pack cache. */
  ghost function Seen(f: Files, cache: PackCache): set<Digest> {
    ListedHashes(f) + CachedHashes(cache)
  }

  /** `mark`: the roots that are taken for present, and the others in order. */
  ghost predicate MarkNext(s: State, roots: set<Digest>, r: Result<LiveSet, CasError>, s': State) {
    match CacheAsked(s)
    case None => r.Err? && r.error.InPack? && s' == s
    case Some(cache) =>
      && s' == s.(packCache := Some(cache))
      && r == Ok(LiveSet(roots * Seen(s.files, cache), SortedDigests(roots - Seen(s.files, cache))))
  }

  /* All calls */

  datatype Op =
    | Put(data: Bytes)
    | PutNew(data: Bytes)
    | PutWithHash(data: Bytes, hash: Digest)
    | Get(hash: Digest)
    | Delete(hash: Digest)
    | Has(hash: Digest)
    | Mark(roots: set<Digest>)
    | Repack(threshold: nat)
    | Sweep(live: set<Digest>, options: Options)
    | InvalidatePackCache
    | SetVerifyOnRead(on: bool)
    | External(files: Files)

  datatype Reply =
    | Stored(result: Result<Digest, CasError>)
    | Data(data: Result<Bytes, CasError>)
    | Found(present: bool)
    | Marked(marked: Result<LiveSet, CasError>)
    | Repacked(count: Result<nat, CasError>, got: seq<Blob>)
    | Swept(ok: bool)
    | Done(error: Option<CasError>)

  /** Writing a loose file that is not there yet. */
  function Written(cfg: Config, s: State, h: Digest, data: Bytes): State {
    s.(files := s.files[Loose(h) := Encode(cfg.c, cfg.compress, data)])
  }

  /** One call, or one arbitrary change of the files by somebody else. */
  ghost predicate Next(cfg: Config, s: State, op: Op, reply: Reply, s': State) {
    match op
    case Put(data) =>
      var h := cfg.c.hash(data);
      && reply == Stored(Ok(h))
      && s' == if Loose(h) in s.files then s else Written(cfg, s, h, data)
    case PutNew(data) =>
      var h := cfg.c.hash(data);
      if Loose(h) in s.files then
        reply == Stored(Err(AlreadyExists(h))) && s' == s
      else
        reply == Stored(Ok(h)) && s' == Written(cfg, s, h, data)
    case PutWithHash(data, h) =>
      if Loose(h) in s.files then
        reply == Done(None) && s' == s
      else if cfg.c.hash(data) != h then
        reply == Done(Some(HashMismatch(h, cfg.c.hash(data)))) && s' == s
      else
        reply == Done(None) && s' == Written(cfg, s, h, data)
    case Get(h) =>
      reply.Data? && GetNext(cfg, s, h, reply.data, s')
    case Delete(h) =>
      if Loose(h) in s.files then
        reply == Done(None) && s' == s.(files := s.files - {Loose(h)})
      else
        reply == Done(Some(BlobNotFound(h))) && s' == s
    case Has(h) =>
      reply.Found? && HasNext(s, h, reply.present, s')
    case Mark(roots) =>
      reply.Marked? && MarkNext(s, roots, reply.marked, s')
    case Repack(threshold) =>
      reply.Repacked? && RepackNext(cfg, s, threshold, reply.count, reply.got, s')
    case Sweep(live, o) =>
      var outcome := SweepOutcome(cfg.c, s.files, live, o);
      && reply == Swept(outcome.ok)
      && s' == s.(files := ApplyAll(s.files, outcome.steps),
                  packCache := if o.mode.DryRun? || !outcome.ok then s.packCache else None)
    case InvalidatePackCache =>
      reply == Done(None) && s' == s.(packCache := None)
    case SetVerifyOnRead(on) =>
      reply == Done(None) && s' == s.(verify := on)
    case External(files) =>
      reply == Done(None) && s' == s.(files := files)
  }
}

/** The store itself. */
module Store {
  import opened Bytes
  import opened Codecs
  import opened Disks
  import opened Errors
  import opened GcModel
  import opened Inventory
  import opened PackFiles
  import opened PackFormat
  import opened Sorting
  import opened StoreModel

  class BlobStore {
    const disk: Disk
    const codec: Codec
    const compress: bool
    var verifyOnRead: bool
    var packCache: Option<PackCache>
    var blobCache: seq<Blob>

    /** `new` and `new_uncompressed`. */
    constructor (disk: Disk, codec: Codec, compress: bool)
      ensures this.disk == disk && Cfg() == Config(codec, compress)
      ensures Now() == State(disk.files, None, [], true)
    {
      this.disk, this.codec, this.compress := disk, codec, compress;
      verifyOnRead, packCache, blobCache := true, None, [];
    }

    function Cfg(): Config {
      Config(codec, compress)
    }

    function Now(): State
      reads this, disk
    {
      State(disk.files, packCache, blobCache, verifyOnRead)
    }

    method SetVerify(on: bool)
      modifies this
      ensures Next(Cfg(), old(Now()), SetVerifyOnRead(on), Done(None), Now())
    {
      verifyOnRead := on;
    }

    method Invalidate()
      modifies this
      ensures Next(Cfg(), old(Now()), InvalidatePackCache, Done(None), Now())
    {
      packCache := None;
    }

    method PutBlob(data: Bytes) returns (r: Result<Digest, CasError>)
      modifies disk
      ensures Next(Cfg(), old(Now()), Put(data), Stored(r), Now())
    {
      var hash := codec.hash(data);
      if Loose(hash) in disk.files {
        return Ok(hash);
      }
      if compress {
        var compressed := codec.compress(data);
        disk.WriteFile(Loose(hash), compressed);
      } else {
        disk.WriteFile(Loose(hash), data);
      }
      return Ok(hash);
    }

    method PutBlobNew(data: Bytes) returns (r: Result<Digest, CasError>)
      modifies disk
      ensures Next(Cfg(), old(Now()), PutNew(data), Stored(r), Now())
    {
      var hash := codec.hash(data);
      if Loose(hash) in disk.files {
        return Err(AlreadyExists(hash));
      }
      if compress {
        var compressed := codec.compress(data);
        disk.WriteFile(Loose(hash), compressed);
      } else {
        disk.WriteFile(Loose(hash), data);
      }
      return Ok(hash);
    }

    method PutBlobWithHash(data: Bytes, expected: Digest) returns (e: Option<CasError>)
      modifies disk
      ensures Next(Cfg(), old(Now()), PutWithHash(data, expected), Done(e), Now())
    {
      if Loose(expected) in disk.files {
        return None;
      }
      var actual := codec.hash(data);
      if actual != expected {
        return Some(HashMismatch(expected, actual));
      }
      if compress {
        var compressed := codec.compress(data);
        disk.WriteFile(Loose(expected), compressed);
      } else {
        disk.WriteFile(Loose(expected), data);
      }
      return None;
    }

    method DeleteBlob(h: Digest) returns (e: Option<CasError>)
      modifies disk
      ensures Next(Cfg(), old(Now()), Delete(h), Done(e), Now())
    {
      if Loose(h) !in disk.files {
        return Some(BlobNotFound(h));
      }
      disk.RemoveFile(Loose(h));
      return None;
    }

    /** `with_pack_cache`: load the indexes if none are held. */
    method WithPackCache() returns (r: Result<PackCache, PackError>)
      modifies this`packCache
      ensures r.Err? ==> old(packCache).None? && !AllIndexed(disk.files) && packCache == old(packCache)
      ensures r.Ok? ==> Loads(old(Now()), r.value) && packCache == Some(r.value)
    {
      if packCache.None? {
        var loaded := LoadAll(disk);
        if loaded.Err? {
          return Err(loaded.error);
        }
        packCache := Some(loaded.value);
      }
      return Ok(packCache.value);
    }

    method GetBlobPacked(h: Digest) returns (r: Result<Bytes, CasError>)
      modifies this`packCache
      ensures PackedNext(Cfg(), old(Now()), h, r, Now())
    {
      hide ParseIndex, ReadBlob, Find;
      var cache := WithPackCache();
      if cache.Err? {
        return Err(InPack(cache.error));
      }
      var found := FindPack(cache.value, h);
      if found.None? {
        return Err(BlobNotFound(h));
      }
      var stem := found.value;
      r := ReadFrom(stem, h);
    }

    /** The part of `get_blob_packed` after a pack has been found. */
    method ReadFrom(stem: Name, h: Digest) returns (r: Result<Bytes, CasError>)
      ensures r == ReadPacked(codec, disk.files, stem, h)
    {
      hide ParseIndex, ReadBlob, Find;
      if Idx(stem) !in disk.files {
        return Err(InPack(PackIo));
      }
      var index := LoadIndex(disk.files[Idx(stem)]);
      if index.Err? {
        return Err(InPack(index.error));
      }
      if Find(index.value, h).None? {
        return Err(InPack(MissingFromPack(h)));
      }
      if Pack(stem) !in disk.files {
        return Err(InPack(PackIo));
      }
      var data := ReadFromPack(codec, disk.files[Pack(stem)], index.value, h);
      match data
      case Ok(d) => return Ok(d);
      case Err(e) => return Err(InPack(e));
    }

    method FindCached(h: Digest) returns (r: Option<nat>)
      ensures r == Position(blobCache, h)
    {
      var i := 0;
      while i < |blobCache|
        invariant i <= |blobCache|
        invariant forall j | 0 <= j < i :: blobCache[j].hash != h
      {
        if blobCache[i].hash == h {
          PositionUnique(blobCache, h, i);
          return Some(i);
        }
        i := i + 1;
      }
      return None;
    }

    method GetBlob(h: Digest) returns (r: Result<Bytes, CasError>)
      modifies this`packCache, this`blobCache
      ensures Next(Cfg(), old(Now()), Get(h), Data(r), Now())
    {
      hide ParseIndex, ReadBlob, Find, Position, PackedNext, ReadLoose;
      ghost var before := Now();
      var hit := FindCached(h);
      if hit.Some? {
        var entry := blobCache[hit.value];
        blobCache := blobCache[..hit.value] + blobCache[hit.value + 1..];
        blobCache := [Blob(h, entry.data)] + blobCache;
        assert entry == Blob(h, entry.data);
        return Ok(entry.data);
      }
      if Loose(h) in disk.files {
        r := DecodeLoose(disk.files[Loose(h)], h);
      } else {
        r := GetBlobPacked(h);
      }
      ghost var s1 := Now();
      if r.Ok? {
        CacheBlob(Blob(h, r.value));
      }
      assert GetNext(Cfg(), before, h, r, Now()) by {
        assert if Loose(h) in before.files then
            s1 == before && r == ReadLoose(codec, before.verify, before.files[Loose(h)], h)
          else PackedNext(Cfg(), before, h, r, s1);
      }
    }

    method DecodeLoose(raw: Bytes, h: Digest) returns (r: Result<Bytes, CasError>)
      ensures r == ReadLoose(codec, verifyOnRead, raw, h)
    {
      var result := raw;
      if IsZstdCompressed(raw) {
        var decompressed := Decompress(codec, raw);
        if decompressed.Err? {
          return Err(decompressed.error);
        }
        result := decompressed.value;
      }
      if verifyOnRead && codec.hash(result) != h {
        return Err(HashMismatch(h, codec.hash(result)));
      }
      return Ok(result);
    }

    method CacheBlob(b: Blob)
      modifies this`blobCache
      ensures blobCache == CacheInsert(old(blobCache), b)
    {
      if |blobCache| >= BLOB_CACHE_CAPACITY {
        blobCache := blobCache[..|blobCache| - 1];
      }
      blobCache := [b] + blobCache;
    }

    method HasBlob(h: Digest) returns (present: bool)
      modifies this`packCache
      ensures Next(Cfg(), old(Now()), Has(h), Found(present), Now())
    {
      hide ParseIndex, ReadBlob, Find;
      if Loose(h) in disk.files {
        return true;
      }
      var cache := WithPackCache();
      if cache.Err? {
        return false;
      }
      var found := FindPack(cache.value, h);
      return found.Some?;
    }

    /** `repack`: one pack of all listed blobs, then best-effort deletion. */
    method RepackLoose(threshold: nat) returns (r: Result<nat, CasError>, ghost got: seq<Blob>, ghost steps: seq<Step>, ghost refused: seq<Path>)
      modifies this, disk
      ensures Next(Cfg(), old(Now()), Repack(threshold), Repacked(r, got), Now())
      ensures RepackRun(Cfg(), old(Now()), threshold, r, got, steps, Now())
      ensures disk.log == old(disk.log) + steps
      ensures disk.refusals == old(disk.refusals) + refused
      ensures steps != [] ==> forall h: Digest | Loose(h) in disk.files :: Loose(h) in refused
    {
      hide ParseIndex, ReadBlob, Find, Position, ReadLoose, PackedNext, CreateSteps, GetsNext, Happened, ApplyAll, SweepOutcome, GetNext, Written, IsListing;
      ghost var before, logged := Now(), disk.log;
      steps, refused := [], [];
      var listed := disk.ListBlobs();
      if |listed| <= threshold {
        got := [];
        assert RepackListed(Cfg(), before, listed, threshold, Ok(0), got, steps, Now());
        assert RepackRun(Cfg(), before, threshold, Ok(0), got, steps, Now());
        return Ok(0), got, steps, refused;
      }
      var error, objects := ReadAll(listed);
      got := objects;
      ghost var s1 := Now();
      if error.Some? {
        assert RepackWrites(Cfg(), before, listed, error, s1, Err(error.value), got, steps, Now());
        assert RepackListed(Cfg(), before, listed, threshold, Err(error.value), got, steps, Now());
        assert RepackRun(Cfg(), before, threshold, Err(error.value), got, steps, Now());
        return Err(error.value), got, steps, refused;
      }
      GetsLength(Cfg(), before, listed, objects, error, s1);
      ghost var denied: seq<bool>;
      denied, refused := PackAndDelete(listed, objects);
      packCache := None;
      steps := CreateSteps(codec, got) + Happened(ApplyAll(before.files, CreateSteps(codec, got)), listed, denied);
      assert Now() == s1.(files := ApplyAll(before.files, steps), packCache := None);
      assert RepackWrites(Cfg(), before, listed, error, s1, Ok(|listed|), got, steps, Now());
      assert RepackListed(Cfg(), before, listed, threshold, Ok(|listed|), got, steps, Now());
      assert RepackRun(Cfg(), before, threshold, Ok(|listed|), got, steps, Now());
      AllListed(before.files, listed);
      return Ok(|listed|), got, steps, refused;
    }

    method PackAndDelete(listed: seq<Digest>, objects: seq<Blob>) returns (ghost denied: seq<bool>, ghost refused: seq<Path>)
      requires objects != []
      modifies disk
      ensures |denied| == |listed|
      ensures disk.refusals == old(disk.refusals) + refused
      ensures forall h: Digest | Loose(h) in disk.files :: (Loose(h) in old(disk.files) && h !in listed) || Loose(h) in refused
      ensures var created := CreateSteps(codec, objects);
              var steps := created + Happened(ApplyAll(old(disk.files), created), listed, denied);
              disk.files == ApplyAll(old(disk.files), steps) && disk.log == old(disk.log) + steps
    {
      hide CreateSteps, PackName, Happened;
      ghost var before, logged := disk.files, disk.log;
      var created := Create(codec, disk, objects);
      ghost var packed, w := disk.files, CreateSteps(codec, objects);
      PackKeepsLoose(before, codec, objects);
      denied, refused := DeleteLoose(listed);
      ApplyAllConcat(before, w, Happened(packed, listed, denied));
      assert (logged + w) + Happened(packed, listed, denied) == logged + (w + Happened(packed, listed, denied));
    }

    method ReadAll(listed: seq<Digest>) returns (error: Option<CasError>, objects: seq<Blob>)
      modifies this`packCache, this`blobCache
      ensures GetsNext(Cfg(), old(Now()), listed, objects, error, Now())
    {
      hide ParseIndex, ReadBlob, Find, Position, ReadLoose, PackedNext, GetNext, GetsNext;
      ghost var start := Now();
      objects := [];
      GetsNone(Cfg(), start);
      for i := 0 to |listed|
        invariant GetsNext(Cfg(), start, listed[..i], objects, None, Now())
      {
        ghost var s1 := Now();
        assert listed[..i + 1] == listed[..i] + [listed[i]];
        var data := GetBlob(listed[i]);
        if data.Err? {
          GetsAppend(Cfg(), start, listed[..i], listed[i], objects, s1, data, objects, Some(data.error), Now());
          GetsStops(Cfg(), start, listed, i + 1, objects, Some(data.error), Now());
          return Some(data.error), objects;
        }
        ghost var more := objects + [Blob(listed[i], data.value)];
        GetsAppend(Cfg(), start, listed[..i], listed[i], objects, s1, data, more, None, Now());
        objects := objects + [Blob(listed[i], data.value)];
      }
      assert listed[..|listed|] == listed;
      return None, objects;
    }

    /** Deleting the packed blobs; each deletion may fail, which is ignored, and
        so is that a digest was listed twice or has no loose file. */
    method DeleteLoose(listed: seq<Digest>) returns (ghost denied: seq<bool>, ghost refused: seq<Path>)
      modifies disk
      ensures |denied| == |listed|
      ensures disk.refusals == old(disk.refusals) + refused
      ensures forall h: Digest | Loose(h) in disk.files :: Loose(h) in old(disk.files) && (h in listed ==> Loose(h) in refused)
      ensures disk.files == ApplyAll(old(disk.files), Happened(old(disk.files), listed, denied))
      ensures disk.log == old(disk.log) + Happened(old(disk.files), listed, denied)
    {
      ghost var start, logged, was := disk.files, disk.log, disk.refusals;
      denied, refused := [], [];
      for i := 0 to |listed|
        invariant |denied| == i
        invariant disk.files == ApplyAll(start, Happened(start, listed[..i], denied))
        invariant disk.log == logged + Happened(start, listed[..i], denied)
        invariant disk.refusals == was + refused
        invariant forall h: Digest | Loose(h) in disk.files :: Loose(h) in start && (h in listed[..i] ==> Loose(h) in refused)
      {
        var h := listed[i];
        ghost var upTo, before, no := listed[..i], Happened(start, listed[..i], denied), false;
        assert listed[..i + 1] == upTo + [h];
        if Loose(h) in disk.files {
          var ok := disk.TryRemove(Loose(h));
          if ok {
            ApplyAllConcat(start, before, [Remove(Loose(h))]);
            ApplyOne(ApplyAll(start, before), Remove(Loose(h)));
          } else {
            no, refused := true, refused + [Loose(h)];
          }
        }
        HappenedAppend(start, upTo, denied, h, no);
        denied := denied + [no];
      }
      assert listed[..|listed|] == listed;
    }
  }

  /** Every loose file is listed. */
  lemma AllListed(f: Files, listed: seq<Digest>)
    requires IsListing(f, listed)
    ensures forall h: Digest | Loose(h) in f :: h in listed
  {
    ListingElements(f, listed);
    ListedHashesExact(f);
    forall h: Digest | Loose(h) in f ensures h in listed {
      assert Names(Loose(h), h);
      assert h in Elements(listed);
    }
  }

  lemma PackKeepsLoose(f: Files, c: Codec, objects: seq<Blob>)
    ensures forall h: Digest :: SameAt(f, ApplyAll(f, CreateSteps(c, objects)), Loose(h))
  {
    hide PackBytes, CreatedIndex, PackName;
    var w := CreateSteps(c, objects);
    ApplyTwo(f, w[0], w[1]);
    assert w == [w[0], w[1]];
  }

  lemma HappenedAppend(f: Files, hs: seq<Digest>, denied: seq<bool>, h: Digest, refused: bool)
    requires |denied| == |hs|
    ensures var before := Happened(f, hs, denied);
            Happened(f, hs + [h], denied + [refused]) ==
            if refused || Loose(h) !in ApplyAll(f, before) then before else before + [Remove(Loose(h))]
  {
    assert (hs + [h])[..|hs|] == hs && (denied + [refused])[..|denied|] == denied;
  }

  /** They take away loose files of the list, and nothing else. */
  lemma {:induction false} HappenedEffect(f: Files, hs: seq<Digest>, denied: seq<bool>)
    requires |denied| == |hs|
    ensures var f' := ApplyAll(f, Happened(f, hs, denied));
            && (forall p | p in f' :: p in f && f'[p] == f[p])
            && (forall p | p in f && !(p.Loose? && p.h in hs) :: p in f')
    decreases |hs|
  {
    if hs != [] {
      var n := |hs| - 1;
      var before := Happened(f, hs[..n], denied[..n]);
      HappenedEffect(f, hs[..n], denied[..n]);
      assert hs == hs[..n] + [hs[n]];
      ApplyAllConcat(f, before, [Remove(Loose(hs[n]))]);
      ApplyOne(ApplyAll(f, before), Remove(Loose(hs[n])));
    }
  }

  ghost function Denied(hs: seq<Digest>, denied: seq<bool>): set<Digest>
    requires |denied| == |hs|
  {
    set i | 0 <= i < |hs| && denied[i] :: hs[i]
  }

  /** When each digest is listed once and has its file, only denial counts. */
  lemma {:induction false} HappenedIsDeletions(f: Files, hs: seq<Digest>, denied: seq<bool>)
    requires |denied| == |hs|
    requires forall i, j | 0 <= i < j < |hs| :: hs[i] != hs[j]
    requires forall h | h in hs :: Loose(h) in f
    ensures Happened(f, hs, denied) == Deletions(hs, Denied(hs, denied))
    decreases |hs|
  {
    if hs != [] {
      var n := |hs| - 1;
      var front, h := hs[..n], hs[n];
      assert hs == front + [h] && h !in front;
      HappenedIsDeletions(f, front, denied[..n]);
      HappenedEffect(f, front, denied[..n]);
      DeletionsAppend(front, h, Denied(hs, denied));
      DeletionsSame(front, Denied(front, denied[..n]), Denied(hs, denied));
      assert h in Denied(hs, denied) <==> denied[n];
    }
  }

  lemma {:induction false} DeletionsSame(hs: seq<Digest>, a: set<Digest>, b: set<Digest>)
    requires forall h | h in hs :: h in a <==> h in b
    ensures Deletions(hs, a) == Deletions(hs, b)
  {
    if hs != [] {
      DeletionsSame(hs[..|hs| - 1], a, b);
    }
  }

  /** The files that deletions take away. */
  ghost function Gone(hs: seq<Digest>, failed: set<Digest>): set<Path> {
    set h | h in hs && h !in failed :: Loose(h)
  }

  lemma {:induction false} DeletionsResult(f: Files, hs: seq<Digest>, failed: set<Digest>)
    ensures ApplyAll(f, Deletions(hs, failed)) == f - Gone(hs, failed)
  {
    if hs == [] {
      assert f - Gone(hs, failed) == f;
    } else {
      var n := |hs| - 1;
      DeletionsResult(f, hs[..n], failed);
      DeletionsAppend(hs[..n], hs[n], failed);
      assert hs == hs[..n] + [hs[n]];
      if hs[n] in failed {
        assert Gone(hs, failed) == Gone(hs[..n], failed);
      } else {
        ApplyAllConcat(f, Deletions(hs[..n], failed), [Remove(Loose(hs[n]))]);
        ApplyOne(f - Gone(hs[..n], failed), Remove(Loose(hs[n])));
        assert Gone(hs, failed) == Gone(hs[..n], failed) + {Loose(hs[n])};
      }
    }
  }

  lemma {:induction false} PositionUnique(cache: seq<Blob>, h: Digest, i: nat)
    requires i < |cache| && cache[i].hash == h
    requires forall j | 0 <= j < i :: cache[j].hash != h
    ensures Position(cache, h) == Some(i)
  {
    if i > 0 {
      PositionUnique(cache[1..], h, i - 1);
    }
  }

  lemma DeletionsAppend(hs: seq<Digest>, h: Digest, failed: set<Digest>)
    ensures Deletions(hs + [h], failed) == if h in failed then Deletions(hs, failed) else Deletions(hs, failed) + [Remove(Loose(h))]
  {
    assert (hs + [h])[..|hs|] == hs;
  }

  lemma GetsNone(cfg: Config, s: State)
    ensures GetsNext(cfg, s, [], [], None, s)
  {
  }

  lemma GetsAppend(cfg: Config, s: State, hs: seq<Digest>, h: Digest, before: seq<Blob>, s1: State,
                   r: Result<Bytes, CasError>, got: seq<Blob>, error: Option<CasError>, s': State)
    requires GetsNext(cfg, s, hs, before, None, s1) && GetNext(cfg, s1, h, r, s') && ReadAdds(before, h, r, got, error)
    ensures GetsNext(cfg, s, hs + [h], got, error, s')
  {
    hide GetNext, ReadAdds;
    var all := hs + [h];
    assert all[..|all| - 1] == hs && all[|all| - 1] == h;
    assert ReadNext(cfg, h, before, None, s1, got, error, s');
  }

  lemma GetsKeepError(cfg: Config, s: State, hs: seq<Digest>, got: seq<Blob>, error: Option<CasError>, s': State)
    requires hs != [] && error.Some? && GetsNext(cfg, s, hs[..|hs| - 1], got, error, s')
    ensures GetsNext(cfg, s, hs, got, error, s')
  {
    assert ReadNext(cfg, hs[|hs| - 1], got, error, s', got, error, s');
  }

  /** Nothing is read after an error. */
  lemma {:induction false} GetsStops(cfg: Config, s: State, hs: seq<Digest>, i: nat, got: seq<Blob>, error: Option<CasError>, s': State)
    requires i <= |hs| && error.Some? && GetsNext(cfg, s, hs[..i], got, error, s')
    ensures GetsNext(cfg, s, hs, got, error, s')
    decreases |hs|
  {
    hide GetNext, ReadAdds;
    if i == |hs| {
      assert hs[..i] == hs;
    } else {
      var n := |hs| - 1;
      assert hs[..n][..i] == hs[..i];
      GetsStops(cfg, s, hs[..n], i, got, error, s');
      GetsKeepError(cfg, s, hs, got, error, s');
    }
  }

  /** As many blobs as digests, in order, unless a read fails. */
  lemma {:induction false} GetsLength(cfg: Config, s: State, hs: seq<Digest>, got: seq<Blob>, error: Option<CasError>, s': State)
    requires GetsNext(cfg, s, hs, got, error, s')
    ensures error.None? ==> |got| == |hs|
    ensures |got| <= |hs| && forall i | 0 <= i < |got| :: got[i].hash == hs[i]
    decreases |hs|
  {
    hide GetNext;
    if hs != [] {
      var n := |hs| - 1;
      var before, e, s1 :| GetsNext(cfg, s, hs[..n], before, e, s1) && ReadNext(cfg, hs[n], before, e, s1, got, error, s');
      GetsLength(cfg, s, hs[..n], before, e, s1);
    }
  }
}

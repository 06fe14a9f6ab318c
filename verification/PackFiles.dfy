/** Reading and writing packs (src/pack.rs). */
module PackFiles {
  import opened Bytes
  import opened Codecs
  import opened Disks
  import opened Errors
  import opened Hex
  import opened Inventory
  import opened PackFormat
  import opened PackTheorems
  import opened Sorting

  /** A buffered reader over a file's bytes. */
  class Reader {
    const data: Bytes
    var pos: nat

    constructor (data: Bytes, start: nat)
      ensures this.data == data && pos == start
    {
      this.data, pos := data, start;
    }

    /** `read_exact`: all `n` bytes or an end-of-file error. */
    method ReadExact(n: nat) returns (r: Option<Bytes>)
      modifies this
      ensures r == if old(pos) + n <= |data| then Some(data[old(pos)..old(pos) + n])
                   else if n == 0 then Some([]) else None
      ensures r.Some? ==> pos == old(pos) + n
    {
      if n == 0 {
        assert pos <= |data| ==> data[pos..pos] == [];
        return Some([]);
      }
      if pos + n > |data| {
        return None;
      }
      r := Some(data[pos..pos + n]);
      pos := pos + n;
    }
  }

  method SerializeIndex(entries: seq<IndexEntry>) returns (data: Bytes)
    ensures data == IndexBytes(entries)
  {
    data := INDEX_MAGIC;
    data := data + ToLe(PACK_VERSION, 4);
    data := data + ToLe(AsU32(|entries|), 4);
    ghost var header := data;
    for i := 0 to |entries|
      invariant data == header + EntryBytes(entries[..i])
    {
      assert entries[..i + 1][..i] == entries[..i];
      data := data + entries[i].hash;
      data := data + ToLe(entries[i].offset, 8);
    }
    assert entries[..|entries|] == entries;
  }

  /** `PackIndex::load` on the bytes of an index file. */
  method LoadIndex(data: Bytes) returns (r: Result<PackIndex, PackError>)
    ensures r == ParseIndex(data)
  {
    hide Sort, EntriesUpTo, EntryAt;
    var reader := new Reader(data, 0);
    var magic := reader.ReadExact(4);
    if magic.None? { return Err(PackIo); }
    if magic.value != INDEX_MAGIC { return Err(InvalidIndexMagic(magic.value)); }
    var version := reader.ReadExact(4);
    if version.None? { return Err(PackIo); }
    if U32FromLe(version.value) != PACK_VERSION {
      return Err(UnsupportedVersion(U32FromLe(version.value)));
    }
    var field := reader.ReadExact(4);
    if field.None? { return Err(PackIo); }
    var count := U32FromLe(field.value);
    var entries := ReadEntries(reader, count);
    if entries.None? { return Err(PackIo); }
    return Ok(PackIndex(Sort(entries.value, HashKey)));
  }

  /** The loop of `load` over the records. */
  method ReadEntries(reader: Reader, count: u32) returns (r: Option<seq<IndexEntry>>)
    requires reader.pos == INDEX_HEADER <= |reader.data|
    modifies reader
    ensures r == if INDEX_HEADER + ENTRY_SIZE * count <= |reader.data| then Some(EntriesUpTo(reader.data, count)) else None
  {
    var entries: seq<IndexEntry> := [];
    for i := 0 to count
      invariant reader.pos == INDEX_HEADER + ENTRY_SIZE * i <= |reader.data|
      invariant entries == EntriesUpTo(reader.data, i)
    {
      var hash := reader.ReadExact(32);
      if hash.None? { return None; }
      var offset := reader.ReadExact(8);
      if offset.None? { return None; }
      entries := entries + [IndexEntry(hash.value, U64FromLe(offset.value))];
    }
    return Some(entries);
  }

  /** `read_blob` on the bytes of a pack file. */
  method ReadFromPack(c: Codec, pack: Bytes, index: PackIndex, h: Digest) returns (r: Result<Bytes, PackError>)
    ensures r == ReadBlob(c, pack, index, h)
  {
    var offset := Find(index, h);
    if offset.None? { return Err(MissingFromPack(h)); }
    var reader := new Reader(pack, offset.value);
    var kind := reader.ReadExact(1);
    if kind.None? { return Err(PackIo); }
    if kind.value[0] != TYPE_BLOB { return Err(UnexpectedObjectType(kind.value[0])); }
    var length := reader.ReadExact(4);
    if length.None? { return Err(PackIo); }
    var size := reader.ReadExact(4);
    if size.None? { return Err(PackIo); }
    var stored := reader.ReadExact(32);
    if stored.None? { return Err(PackIo); }
    var compressed := reader.ReadExact(U32FromLe(size.value));
    if compressed.None? { return Err(PackIo); }
    var data := Decompress(c, compressed.value);
    if data.Err? { return Err(PackDecompression); }
    if c.hash(data.value) != h { return Err(PackHashMismatch(h, c.hash(data.value))); }
    return Ok(data.value);
  }

  method AppendRecord(c: Codec, buffer: Bytes, o: Blob) returns (packData: Bytes)
    ensures packData == buffer + Record(c, o)
  {
    var compressed := c.compress(o.data);
    packData := buffer + [TYPE_BLOB];
    packData := packData + ToLe(AsU32(|o.data|), 4);
    packData := packData + ToLe(AsU32(|compressed|), 4);
    packData := packData + o.hash;
    packData := packData + compressed;
  }

  /** The loop of `create`: each object is indexed at the length the buffer
      has when its record is appended. */
  method FillBuffer(c: Codec, objects: seq<Blob>) returns (packData: Bytes, entries: seq<IndexEntry>)
    ensures packData == PackBytes(c, objects)
    ensures entries == EntriesOf(c, objects)
  {
    hide Record, AsU64;
    packData := PACK_MAGIC;
    packData := packData + ToLe(PACK_VERSION, 4);
    packData := packData + ToLe(AsU32(|objects|), 4);
    ghost var header := packData;
    hide AsU32, ToLe;
    entries := [];
    for i := 0 to |objects|
      invariant |header| == 12
      invariant packData == header + Records(c, objects[..i])
      invariant entries == EntriesOf(c, objects[..i])
    {
      assert objects[..i + 1][..i] == objects[..i];
      var offset := AsU64(|packData|);
      packData := AppendRecord(c, packData, objects[i]);
      entries := entries + [IndexEntry(objects[i].hash, offset)];
    }
    assert objects[..|objects|] == objects;
  }

  /** `PackFile::create`: fill the buffer, index it, write pack then index. */
  method Create(c: Codec, disk: Disk, objects: seq<Blob>) returns (r: Result<Name, PackError>)
    modifies disk`files, disk`log
    ensures objects == [] ==> r == Err(EmptyPack) && disk.files == old(disk.files) && disk.log == old(disk.log)
    ensures objects != [] ==>
              && r == Ok(PackName(c, objects))
              && disk.files == ApplyAll(old(disk.files), CreateSteps(c, objects))
              && disk.log == old(disk.log) + CreateSteps(c, objects)
  {
    hide PackBytes, EntriesOf, IndexBytes, HexOf;
    if objects == [] {
      return Err(EmptyPack);
    }
    var packData, entries := FillBuffer(c, objects);
    var indexData := SerializeIndex(entries);
    var hex := ToHex(c.hash(indexData));
    var name := PACK_PREFIX + hex;
    ApplyTwo(disk.files, Write(Pack(name), packData), Write(Idx(name), indexData));
    ghost var logged := disk.log;
    disk.WriteFile(Pack(name), packData);
    disk.WriteFile(Idx(name), indexData);
    assert disk.log == logged + [Write(Pack(name), packData), Write(Idx(name), indexData)];
    return Ok(name);
  }

  /** The loaded pack indices, by pack. */
  type PackCache = map<Name, PackIndex>

  ghost function CacheOf(f: Files): PackCache {
    map s | s in PackStems(f) && Indexed(f, s) :: ParseIndex(f[Idx(s)]).value
  }

  lemma CacheOfExact(f: Files)
    ensures forall s :: s in CacheOf(f) <==> Indexed(f, s)
    ensures forall s | s in CacheOf(f) :: CacheOf(f)[s] == ParseIndex(f[Idx(s)]).value
    ensures forall s | s in CacheOf(f) :: Hashes(CacheOf(f)[s]) == HashesOf(f, s)
  {
    PackStemsExact(f);
  }

  /** `PackCache::load_all`: one index that does not load fails the whole. */
  method LoadAll(disk: Disk) returns (r: Result<PackCache, PackError>)
    ensures r.Ok? <==> AllIndexed(disk.files)
    ensures r.Ok? ==> r.value == CacheOf(disk.files)
  {
    hide ParseIndex, StrictlyInOrder, CacheOf;
    var cache: PackCache := map[];
    var stems := disk.ListPacks();
    for i := 0 to |stems|
      invariant forall s :: s in cache <==> s in stems[..i] && Indexed(disk.files, s)
      invariant forall s | s in cache :: cache[s] == ParseIndex(disk.files[Idx(s)]).value
      invariant forall s | s in stems[..i] :: Paired(disk.files, s) ==> Indexed(disk.files, s)
    {
      var s := stems[i];
      assert s in stems;
      if Idx(s) in disk.files {
        var index := LoadIndex(disk.files[Idx(s)]);
        if index.Err? {
          assert Paired(disk.files, s) && !Indexed(disk.files, s);
          return Err(index.error);
        }
        cache := cache[s := index.value];
      }
    }
    assert stems[..|stems|] == stems;
    CacheOfExact(disk.files);
    return Ok(cache);
  }

  /** `PackCache::find`: the first pack, in whatever order the hash map is
      iterated, that indexes the digest. */
  method FindPack(cache: PackCache, h: Digest) returns (r: Option<Name>)
    ensures r.Some? ==> r.value in cache && Find(cache[r.value], h).Some?
    ensures r.None? ==> forall s | s in cache :: Find(cache[s], h).None?
  {
    var rest := cache.Keys;
    while rest != {}
      invariant rest <= cache.Keys
      invariant forall s | s in cache && s !in rest :: Find(cache[s], h).None?
      decreases rest
    {
      var s :| s in rest;
      if Find(cache[s], h).Some? {
        return Some(s);
      }
      rest := rest - {s};
    }
    return None;
  }

  ghost function CachedHashes(cache: PackCache): set<Digest> {
    set s, h | s in cache && h in Hashes(cache[s]) :: h
  }

  /** `PackCache::all_hashes`: concatenate, sort, remove duplicates. */
  method AllHashes(cache: PackCache) returns (hashes: seq<Digest>)
    ensures hashes == SortedDigests(CachedHashes(cache))
  {
    hashes := [];
    var rest := cache.Keys;
    ghost var seen: set<Name> := {};
    while rest != {}
      invariant seen !! rest && seen + rest == cache.Keys
      invariant forall h :: h in hashes <==> exists s :: s in seen && h in Hashes(cache[s])
      decreases rest
    {
      var s :| s in rest;
      ghost var before, was := hashes, seen;
      var more := HashList(cache[s]);
      hashes := hashes + more;
      rest, seen := rest - {s}, seen + {s};
      forall h ensures h in hashes <==> exists t :: t in seen && h in Hashes(cache[t]) {
        assert h in hashes <==> h in before || h in Hashes(cache[s]);
        assert h in before <==> exists t :: t in was && h in Hashes(cache[t]);
      }
    }
    assert seen == cache.Keys;
    ghost var all := hashes;
    hashes := Sort(hashes, DigestKey);
    SortSorted(all, DigestKey);
    SameElements(hashes, all);
    DedupSorted(hashes, CachedHashes(cache));
    hashes := Dedup(hashes);
  }

  /** `PackIndex::hashes`. */
  function HashList(index: PackIndex): (hs: seq<Digest>)
    ensures forall h :: h in hs <==> h in Hashes(index)
    ensures |hs| == |index.entries|
    ensures forall i | 0 <= i < |hs| :: hs[i] == index.entries[i].hash
  {
    var hs := seq(|index.entries|, i requires 0 <= i < |index.entries| => index.entries[i].hash);
    assert forall h | h in Hashes(index) :: h in hs by {
      forall h | h in Hashes(index) ensures h in hs {
        var i :| 0 <= i < |index.entries| && index.entries[i].hash == h;
        assert hs[i] == h;
      }
    }
    hs
  }

  /** Collecting the digests of a loaded index into a `BTreeSet`. */
  lemma DistinctHashList(b: Bytes)
    requires ParseIndex(b).Ok?
    ensures Dedup(HashList(ParseIndex(b).value)) == SortedDigests(Hashes(ParseIndex(b).value))
  {
    var index := ParseIndex(b).value;
    var hs := HashList(index);
    LoadedIndexSorted(b);
    forall i, j | 0 <= i < j < |hs| ensures !Less(DigestKey(hs[j]), DigestKey(hs[i])) {
      assert !Less(HashKey(index.entries[j]), HashKey(index.entries[i]));
    }
    DedupSorted(hs, Hashes(index));
  }
}

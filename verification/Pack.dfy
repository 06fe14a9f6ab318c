/** The `.pack` and `.idx` byte formats (src/pack.rs): what the writers produce
    and what the readers accept. */
module PackFormat {
  import opened Bytes
  import opened Codecs
  import opened Errors
  import opened Sorting

  const PACK_MAGIC: Bytes := [0x53, 0x50, 0x43, 0x4B]
  const INDEX_MAGIC: Bytes := [0x53, 0x49, 0x44, 0x58]
  const PACK_VERSION: u32 := 1
  const TYPE_BLOB: byte := 1

  datatype IndexEntry = IndexEntry(hash: Digest, offset: u64)

  datatype PackIndex = PackIndex(entries: seq<IndexEntry>)

  function HashKey(e: IndexEntry): Bytes {
    e.hash
  }

  function Hashes(index: PackIndex): set<Digest> {
    set e | e in index.entries :: e.hash
  }

  /* The index file */

  const INDEX_HEADER := 12
  const ENTRY_SIZE := 40

  function Header(magic: Bytes, count: nat): (b: Bytes)
    requires |magic| == 4
    ensures |b| == INDEX_HEADER
  {
    magic + ToLe(PACK_VERSION, 4) + ToLe(AsU32(count), 4)
  }

  function EntryBytes(es: seq<IndexEntry>): (b: Bytes)
    ensures |b| == ENTRY_SIZE * |es|
  {
    if es == [] then [] else
      var e := es[|es| - 1];
      EntryBytes(es[..|es| - 1]) + e.hash + ToLe(e.offset, 8)
  }

  /** What `serialize_index` produces. */
  function IndexBytes(es: seq<IndexEntry>): (b: Bytes)
    ensures |b| == INDEX_HEADER + ENTRY_SIZE * |es|
  {
    Header(INDEX_MAGIC, |es|) + EntryBytes(es)
  }

  /** The `i`-th record of an index file. */
  function EntryAt(b: Bytes, i: nat): IndexEntry
    requires INDEX_HEADER + ENTRY_SIZE * (i + 1) <= |b|
  {
    var p := INDEX_HEADER + ENTRY_SIZE * i;
    IndexEntry(b[p..p + 32], U64FromLe(b[p + 32..p + 40]))
  }

  function EntriesUpTo(b: Bytes, n: nat): (es: seq<IndexEntry>)
    requires INDEX_HEADER + ENTRY_SIZE * n <= |b|
    ensures |es| == n
    ensures forall i | 0 <= i < n :: es[i] == EntryAt(b, i)
  {
    if n == 0 then [] else EntriesUpTo(b, n - 1) + [EntryAt(b, n - 1)]
  }

  /** What `PackIndex::load` makes of a file's bytes. */
  function ParseIndex(b: Bytes): Result<PackIndex, PackError> {
    if |b| < 4 then Err(PackIo)
    else if b[..4] != INDEX_MAGIC then Err(InvalidIndexMagic(b[..4]))
    else if |b| < 8 then Err(PackIo)
    else if U32FromLe(b[4..8]) != PACK_VERSION then Err(UnsupportedVersion(U32FromLe(b[4..8])))
    else if |b| < 12 then Err(PackIo)
    else if |b| < INDEX_HEADER + ENTRY_SIZE * U32FromLe(b[8..12]) then Err(PackIo)
    else Ok(PackIndex(Sort(EntriesUpTo(b, U32FromLe(b[8..12])), HashKey)))
  }

  /** `binary_search_by_key` over entries `lo..hi`. */
  function BinarySearch(es: seq<IndexEntry>, h: Digest, lo: nat, hi: nat): (r: Option<nat>)
    requires lo <= hi <= |es|
    ensures r.Some? ==> lo <= r.value < hi && es[r.value].hash == h
    decreases hi - lo
  {
    if lo == hi then None else
      var mid := lo + (hi - lo) / 2;
      if es[mid].hash == h then Some(mid)
      else if Less(es[mid].hash, h) then BinarySearch(es, h, mid + 1, hi)
      else BinarySearch(es, h, lo, mid)
  }

  function SearchIndex(index: PackIndex, h: Digest): Option<nat> {
    BinarySearch(index.entries, h, 0, |index.entries|)
  }

  function Find(index: PackIndex, h: Digest): (r: Option<u64>)
    ensures r.Some? ==> IndexEntry(h, r.value) in index.entries
  {
    match SearchIndex(index, h)
    case None => None
    case Some(i) => assert index.entries[i] in index.entries; Some(index.entries[i].offset)
  }

  /* The pack file */

  function Record(c: Codec, o: Blob): (b: Bytes)
    ensures |b| == 41 + |c.compress(o.data)|
  {
    [TYPE_BLOB] + ToLe(AsU32(|o.data|), 4) + ToLe(AsU32(|c.compress(o.data)|), 4) + o.hash + c.compress(o.data)
  }

  function Records(c: Codec, objects: seq<Blob>): Bytes {
    if objects == [] then [] else
      Records(c, objects[..|objects| - 1]) + Record(c, objects[|objects| - 1])
  }

  /** The buffer `create` writes to the `.pack` file. */
  function PackBytes(c: Codec, objects: seq<Blob>): Bytes {
    Header(PACK_MAGIC, |objects|) + Records(c, objects)
  }

  /** The index entries `create` accumulates: each object with the length of
      the buffer before it. */
  function EntriesOf(c: Codec, objects: seq<Blob>): (es: seq<IndexEntry>)
    ensures |es| == |objects|
  {
    if objects == [] then [] else
      var front := objects[..|objects| - 1];
      EntriesOf(c, front) + [IndexEntry(objects[|objects| - 1].hash, AsU64(12 + |Records(c, front)|))]
  }

  /** What `read_blob` does once the index has given it an offset. */
  function ReadRecord(c: Codec, pack: Bytes, offset: nat, h: Digest): Result<Bytes, PackError> {
    if |pack| < offset + 1 then Err(PackIo)
    else if pack[offset] != TYPE_BLOB then Err(UnexpectedObjectType(pack[offset]))
    else if |pack| < offset + 41 then Err(PackIo)
    else
      var size := U32FromLe(pack[offset + 5..offset + 9]);
      if |pack| < offset + 41 + size then Err(PackIo)
      else
        match Decompress(c, pack[offset + 41..offset + 41 + size])
        case Err(_) => Err(PackDecompression)
        case Ok(data) => if c.hash(data) != h then Err(PackHashMismatch(h, c.hash(data))) else Ok(data)
  }

  function ReadBlob(c: Codec, pack: Bytes, index: PackIndex, h: Digest): (r: Result<Bytes, PackError>)
    ensures r.Ok? ==> c.hash(r.value) == h && |r.value| <= MAX_DECOMPRESSED && h in Hashes(index)
  {
    match Find(index, h)
    case None => Err(MissingFromPack(h))
    case Some(offset) => ReadRecord(c, pack, offset, h)
  }
}

/** Properties of the formats. */
module PackTheorems {
  import opened Bytes
  import opened Codecs
  import opened Errors
  import opened Sorting
  import opened PackFormat

  lemma {:induction false} EntryBytesAt(es: seq<IndexEntry>, i: nat)
    requires i < |es|
    ensures ENTRY_SIZE * (i + 1) <= |EntryBytes(es)|
    ensures EntryBytes(es)[ENTRY_SIZE * i..ENTRY_SIZE * i + 32] == es[i].hash
    ensures EntryBytes(es)[ENTRY_SIZE * i + 32..ENTRY_SIZE * i + 40] == ToLe(es[i].offset, 8)
  {
    var front := es[..|es| - 1];
    if i < |es| - 1 {
      EntryBytesAt(front, i);
      assert ENTRY_SIZE * (i + 1) <= |EntryBytes(front)|;
    }
  }

  lemma EntryReadsBack(es: seq<IndexEntry>, i: nat, trailing: Bytes)
    requires i < |es|
    ensures EntryAt(IndexBytes(es) + trailing, i) == es[i]
  {
    var b := IndexBytes(es) + trailing;
    var p := INDEX_HEADER + ENTRY_SIZE * i;
    EntryBytesAt(es, i);
    assert b[p..p + 32] == EntryBytes(es)[ENTRY_SIZE * i..ENTRY_SIZE * i + 32];
    assert b[p + 32..p + 40] == EntryBytes(es)[ENTRY_SIZE * i + 32..ENTRY_SIZE * i + 40];
    U64RoundTrip(es[i].offset);
  }

  lemma IndexHeaderReadsBack(es: seq<IndexEntry>, trailing: Bytes)
    ensures var b := IndexBytes(es) + trailing;
            b[..4] == INDEX_MAGIC && U32FromLe(b[4..8]) == PACK_VERSION && U32FromLe(b[8..12]) == AsU32(|es|)
  {
    var b := IndexBytes(es) + trailing;
    assert b[4..8] == ToLe(PACK_VERSION, 4);
    assert b[8..12] == ToLe(AsU32(|es|), 4);
    U32RoundTrip(PACK_VERSION);
    U32RoundTrip(AsU32(|es|));
  }

  /** Loading a serialized index, whatever follows it in the file, gives its
      entries in digest order; a count that does not fit 32 bits is truncated
      and only that many entries survive. */
  lemma IndexRoundTrip(es: seq<IndexEntry>, trailing: Bytes)
    ensures ParseIndex(IndexBytes(es) + trailing) == Ok(PackIndex(Sort(es[..AsU32(|es|)], HashKey)))
  {
    hide EntryAt, EntryBytes, Header, U32FromLe, AsU32, Sort;
    var b := IndexBytes(es) + trailing;
    var n := AsU32(|es|);
    IndexHeaderReadsBack(es, trailing);
    CountFits(|es|);
    forall i | 0 <= i < n ensures EntryAt(b, i) == es[i] {
      EntryReadsBack(es, i, trailing);
    }
    assert EntriesUpTo(b, n) == es[..n];
  }

  lemma CountFits(n: nat)
    ensures AsU32(n) <= n
  {
  }

  /** A torn index is unreadable, never a smaller index. */
  lemma TornIndexRejected(es: seq<IndexEntry>, n: nat)
    requires |es| < U32_SIZE
    requires n < |IndexBytes(es)|
    ensures ParseIndex(IndexBytes(es)[..n]).Err?
  {
    var b := IndexBytes(es);
    IndexHeaderReadsBack(es, []);
    assert b + [] == b;
    if n >= 12 {
      assert b[..n][8..12] == b[8..12];
    }
  }

  /** Loading keeps the entries (as a multiset, so duplicates too) and orders
      them, for any file it accepts. */
  lemma LoadedIndexSorted(b: Bytes)
    requires ParseIndex(b).Ok?
    ensures Sorted(ParseIndex(b).value.entries, HashKey)
    ensures |ParseIndex(b).value.entries| == U32FromLe(b[8..12])
    ensures multiset(ParseIndex(b).value.entries) == multiset(EntriesUpTo(b, U32FromLe(b[8..12])))
  {
    SortSorted(EntriesUpTo(b, U32FromLe(b[8..12])), HashKey);
  }

  lemma LessComesFirst(es: seq<IndexEntry>, i: nat, j: nat)
    requires i < |es| && j < |es| && Sorted(es, HashKey)
    requires Less(HashKey(es[i]), HashKey(es[j]))
    ensures i < j
  {
    LessIrreflexive(HashKey(es[i]));
  }

  lemma {:induction false} BinarySearchComplete(es: seq<IndexEntry>, h: Digest, lo: nat, hi: nat, k: nat)
    requires lo <= k < hi <= |es| && es[k].hash == h
    requires Sorted(es, HashKey)
    ensures BinarySearch(es, h, lo, hi).Some?
    decreases hi - lo
  {
    var mid := lo + (hi - lo) / 2;
    if es[mid].hash != h {
      LessTotal(es[mid].hash, h);
      if Less(es[mid].hash, h) {
        LessComesFirst(es, mid, k);
        BinarySearchComplete(es, h, mid + 1, hi, k);
      } else {
        LessComesFirst(es, k, mid);
        BinarySearchComplete(es, h, lo, mid, k);
      }
    }
  }

  /** On a loaded index, lookup succeeds exactly on the stored digests, with
      one of their stored offsets. */
  lemma FindExact(b: Bytes, h: Digest)
    requires ParseIndex(b).Ok?
    ensures var index := ParseIndex(b).value;
            && (Find(index, h).Some? <==> h in Hashes(index))
            && (Find(index, h).Some? ==> IndexEntry(h, Find(index, h).value) in EntriesUpTo(b, U32FromLe(b[8..12])))
  {
    var index := ParseIndex(b).value;
    LoadedIndexSorted(b);
    SameElements(index.entries, EntriesUpTo(b, U32FromLe(b[8..12])));
    if h in Hashes(index) {
      var k :| 0 <= k < |index.entries| && index.entries[k].hash == h;
      BinarySearchComplete(index.entries, h, 0, |index.entries|, k);
    }
  }

  /* The pack file */

  lemma {:induction false} EntriesOfAt(c: Codec, objects: seq<Blob>, i: nat)
    requires i < |objects|
    ensures EntriesOf(c, objects)[i] == IndexEntry(objects[i].hash, AsU64(12 + |Records(c, objects[..i])|))
  {
    var front := objects[..|objects| - 1];
    if i < |objects| - 1 {
      EntriesOfAt(c, front, i);
      assert front[..i] == objects[..i];
    }
  }

  /** The record of object `i` starts where the records before it end. */
  lemma {:induction false} RecordsAt(c: Codec, objects: seq<Blob>, i: nat)
    requires i < |objects|
    ensures var p := |Records(c, objects[..i])|; var r := Record(c, objects[i]);
            p + |r| <= |Records(c, objects)| && Records(c, objects)[p..p + |r|] == r
  {
    var front := objects[..|objects| - 1];
    if i < |objects| - 1 {
      RecordsAt(c, front, i);
      assert front[..i] == objects[..i];
    } else {
      assert objects[..i] == front;
    }
  }

  /** A record written in a pack reads back as its data exactly when the data
      hashes to its digest and is within the decompression cap. */
  lemma RecordReadsBack(c: Codec, pack: Bytes, p: nat, o: Blob)
    requires Lawful(c) && |c.compress(o.data)| < U32_SIZE
    requires p + |Record(c, o)| <= |pack| && pack[p..p + |Record(c, o)|] == Record(c, o)
    ensures ReadRecord(c, pack, p, o.hash) == Ok(o.data) <==>
            c.hash(o.data) == o.hash && |o.data| <= MAX_DECOMPRESSED
    ensures ReadRecord(c, pack, p, o.hash).Ok? ==> ReadRecord(c, pack, p, o.hash) == Ok(o.data)
  {
    hide ReadRecord, Record;
    RecordInflates(c, pack, p, o);
    assert c.inflate(c.compress(o.data)) == Some(o.data);
  }

  /** Reading a record inflates its frame. */
  lemma RecordInflates(c: Codec, pack: Bytes, p: nat, o: Blob)
    requires |c.compress(o.data)| < U32_SIZE
    requires p + |Record(c, o)| <= |pack| && pack[p..p + |Record(c, o)|] == Record(c, o)
    ensures ReadRecord(c, pack, p, o.hash) ==
            match Decompress(c, c.compress(o.data))
            case Err(_) => Err(PackDecompression)
            case Ok(data) => if c.hash(data) != o.hash then Err(PackHashMismatch(o.hash, c.hash(data))) else Ok(data)
  {
    hide Record, ToLe, U32FromLe, Decompress, AsU32;
    var z := c.compress(o.data);
    RecordFields(c, o);
    SliceOfSlice(pack, p, Record(c, o), 0, 1);
    SliceOfSlice(pack, p, Record(c, o), 5, 9);
    SliceOfSlice(pack, p, Record(c, o), 41, 41 + |z|);
    assert pack[p] == pack[p..p + 1][0];
    FitsU32(|z|);
  }

  lemma FitsU32(n: nat)
    requires n < U32_SIZE
    ensures U32FromLe(ToLe(AsU32(n), 4)) == n
  {
    U32RoundTrip(AsU32(n));
  }

  /** What readers of the format find in a record: the type, the length of the data and
      of its frame modulo 2^32, the digest, and the frame. */
  lemma RecordReadsAs(c: Codec, o: Blob)
    ensures var r, z := Record(c, o), c.compress(o.data);
            && r[0] == TYPE_BLOB
            && U32FromLe(r[1..5]) == |o.data| % U32_SIZE
            && U32FromLe(r[5..9]) == |z| % U32_SIZE
            && r[9..41] == o.hash && r[41..] == z
  {
    hide ToLe, U32FromLe;
    var r, z := Record(c, o), c.compress(o.data);
    assert r[1..5] == ToLe(AsU32(|o.data|), 4) && r[5..9] == ToLe(AsU32(|z|), 4);
    U32RoundTrip(AsU32(|o.data|));
    U32RoundTrip(AsU32(|z|));
  }

  /** And in the headers: `SPCK` or `SIDX`, version 1, and the number of objects
      modulo 2^32. */
  lemma HeaderReadsAs(magic: Bytes, n: nat)
    requires |magic| == 4
    ensures var b := Header(magic, n);
            b[..4] == magic && b[4..8] == [1, 0, 0, 0] && U32FromLe(b[8..12]) == n % U32_SIZE
  {
    hide U32FromLe;
    var b := Header(magic, n);
    assert b[4..8] == ToLe(PACK_VERSION, 4) && b[8..12] == ToLe(AsU32(n), 4);
    assert ToLe(1, 4) == [1, 0, 0, 0];
    U32RoundTrip(AsU32(n));
  }

  lemma PackHeaderReadsAs(c: Codec, objects: seq<Blob>)
    ensures var b := PackBytes(c, objects);
            |b| >= 12 && b[..8] == [0x53, 0x50, 0x43, 0x4B, 1, 0, 0, 0] && U32FromLe(b[8..12]) == |objects| % U32_SIZE
    ensures var b := IndexBytes(EntriesOf(c, objects));
            |b| >= 12 && b[..8] == [0x53, 0x49, 0x44, 0x58, 1, 0, 0, 0] && U32FromLe(b[8..12]) == |objects| % U32_SIZE
  {
    hide U32FromLe, Records, Header, EntryBytes;
    HeaderReadsAs(PACK_MAGIC, |objects|);
    HeaderReadsAs(INDEX_MAGIC, |objects|);
    FirstTwelve(Header(PACK_MAGIC, |objects|), Records(c, objects));
    FirstTwelve(Header(INDEX_MAGIC, |objects|), EntryBytes(EntriesOf(c, objects)));
  }

  lemma FirstTwelve(a: Bytes, b: Bytes)
    requires |a| == 12
    ensures (a + b)[..8] == a[..4] + a[4..8] && (a + b)[8..12] == a[8..12]
  {
  }

  /** A record of another type is never read as a blob, whatever follows: the byte at
      the offset that the index stores for the digest is looked at first. */
  lemma OnlyBlobsRead(c: Codec, pack: Bytes, index: PackIndex, h: Digest, p: u64)
    requires Find(index, h) == Some(p)
    ensures IndexEntry(h, p) in index.entries
    ensures var read := ReadBlob(c, pack, index, h);
            && (read.Ok? ==> p < |pack| && pack[p] == 1)
            && (p < |pack| && pack[p] != 1 <==> read == Err(UnexpectedObjectType(if p < |pack| then pack[p] else 1)))
  {
    hide Decompress, U32FromLe;
  }

  /** An index with foreign magic, or another version, is refused with what was found. */
  lemma ForeignIndexRefused(b: Bytes)
    requires |b| >= 8
    ensures ParseIndex(b) == Err(InvalidIndexMagic(b[..4])) <==> b[..4] != INDEX_MAGIC
    ensures b[..4] == INDEX_MAGIC ==>
              (ParseIndex(b) == Err(UnsupportedVersion(U32FromLe(b[4..8]))) <==> U32FromLe(b[4..8]) != PACK_VERSION)
    ensures ParseIndex(b).Ok? ==> |b| >= 12 + 40 * U32FromLe(b[8..12])
  {
    hide Sort, EntriesUpTo;
  }

  /** A pack of which the end is missing may fail to read, but never reads as
      something else. */
  lemma TornPackNeverLies(c: Codec, pack: Bytes, n: nat, index: PackIndex, h: Digest)
    requires n <= |pack|
    ensures ReadBlob(c, pack[..n], index, h).Ok? ==> ReadBlob(c, pack[..n], index, h) == ReadBlob(c, pack, index, h)
  {
    hide Find, Decompress, U32FromLe;
    var torn := pack[..n];
    match Find(index, h) {
      case None =>
      case Some(p) =>
        if n >= p + 41 {
          assert torn[p + 5..p + 9] == pack[p + 5..p + 9];
          var size := U32FromLe(torn[p + 5..p + 9]);
          if n >= p + 41 + size { assert torn[p + 41..p + 41 + size] == pack[p + 41..p + 41 + size]; }
        }
    }
  }

  lemma RecordFields(c: Codec, o: Blob)
    ensures var z := c.compress(o.data);
            && Record(c, o)[0..1] == [TYPE_BLOB]
            && Record(c, o)[5..9] == ToLe(AsU32(|z|), 4)
            && Record(c, o)[41..41 + |z|] == z
  {
    hide ToLe, AsU32;
  }

  lemma SliceOfSlice(b: Bytes, p: nat, r: Bytes, i: nat, j: nat)
    requires p + |r| <= |b| && b[p..p + |r|] == r && i <= j <= |r|
    ensures b[p + i..p + j] == r[i..j]
  {
    forall k | i <= k < j ensures b[p + k] == r[k] {
      assert b[p..p + |r|][k] == b[p + k];
    }
    assert b[p + i..p + j] == r[i..j];
  }

  ghost predicate DistinctDigests(objects: seq<Blob>) {
    forall i, j | 0 <= i < j < |objects| :: objects[i].hash != objects[j].hash
  }

  /** Lookup in a sorted copy of entries with distinct digests lands on the
      one entry stored for the digest. */
  lemma SearchFindsStored(stored: seq<IndexEntry>, sorted: seq<IndexEntry>, h: Digest)
    requires multiset(stored) == multiset(sorted)
    requires forall j, k | 0 <= j < k < |stored| :: stored[j].hash != stored[k].hash
    requires Sorted(sorted, HashKey)
    ensures var r := SearchIndex(PackIndex(sorted), h);
            && (forall i | 0 <= i < |stored| && stored[i].hash == h :: r.Some? && sorted[r.value] == stored[i])
            && ((forall i | 0 <= i < |stored| :: stored[i].hash != h) ==> r == None)
  {
    var r := SearchIndex(PackIndex(sorted), h);
    if r.Some? {
      var k := ElementMoves(sorted, stored, r.value);
    }
    forall i | 0 <= i < |stored| && stored[i].hash == h ensures r.Some? {
      var k := ElementMoves(stored, sorted, i);
      BinarySearchComplete(sorted, h, 0, |sorted|, k);
    }
  }

  lemma EntriesDistinct(c: Codec, objects: seq<Blob>)
    requires DistinctDigests(objects)
    ensures var es := EntriesOf(c, objects);
            && (forall j | 0 <= j < |es| :: es[j].hash == objects[j].hash)
            && (forall j, k | 0 <= j < k < |es| :: es[j].hash != es[k].hash)
  {
    forall j | 0 <= j < |objects| ensures EntriesOf(c, objects)[j].hash == objects[j].hash {
      EntriesOfAt(c, objects, j);
    }
  }

  /** The entries of a pack that survive the 32-bit count of its index. */
  function Stored(c: Codec, objects: seq<Blob>): seq<IndexEntry> {
    EntriesOf(c, objects)[..AsU32(|objects|)]
  }

  /** What loading the index of a created pack gives. */
  function Loaded(c: Codec, objects: seq<Blob>): PackIndex {
    PackIndex(Sort(Stored(c, objects), HashKey))
  }

  lemma CreatedIndexLoads(c: Codec, objects: seq<Blob>)
    ensures ParseIndex(IndexBytes(EntriesOf(c, objects))) == Ok(Loaded(c, objects))
  {
    var es := EntriesOf(c, objects);
    IndexRoundTrip(es, []);
    assert IndexBytes(es) + [] == IndexBytes(es);
  }

  /** In the loaded index of a pack with distinct digests, each of the first
      2^32 objects is found at its own offset and no other object is found. */
  lemma FoundAtOwnOffset(c: Codec, objects: seq<Blob>, i: nat)
    requires DistinctDigests(objects) && i < |objects|
    ensures Find(Loaded(c, objects), objects[i].hash) ==
            if i < AsU32(|objects|) then Some(AsU64(12 + |Records(c, objects[..i])|)) else None
  {
    var stored := Stored(c, objects);
    EntriesDistinct(c, objects);
    SortSorted(stored, HashKey);
    SearchFindsStored(stored, Sort(stored, HashKey), objects[i].hash);
    if i < |stored| {
      EntriesOfAt(c, objects, i);
      assert stored[i].hash == objects[i].hash;
    }
  }

  lemma ReadsWhereFound(c: Codec, pack: Bytes, index: PackIndex, h: Digest)
    ensures ReadBlob(c, pack, index, h) ==
            if Find(index, h).None? then Err(MissingFromPack(h)) else ReadRecord(c, pack, Find(index, h).value, h)
  {
  }

  /** Writing a pack and reading it back, for every list of objects with
      distinct digests: an object reads back as its data exactly when its data
      hashes to its digest, is within the decompression cap, and its position
      survives the truncation of the count to 32 bits; and it never reads back as
      anything else. */
  lemma PackRoundTrip(c: Codec, objects: seq<Blob>, i: nat)
    requires Lawful(c) && DistinctDigests(objects) && i < |objects|
    requires |c.compress(objects[i].data)| < U32_SIZE
    requires |PackBytes(c, objects)| < U64_SIZE
    ensures ParseIndex(IndexBytes(EntriesOf(c, objects))) == Ok(Loaded(c, objects))
    ensures ReadBlob(c, PackBytes(c, objects), Loaded(c, objects), objects[i].hash) == Ok(objects[i].data) <==>
            && c.hash(objects[i].data) == objects[i].hash
            && |objects[i].data| <= MAX_DECOMPRESSED
            && i < AsU32(|objects|)
    ensures var read := ReadBlob(c, PackBytes(c, objects), Loaded(c, objects), objects[i].hash);
            read.Ok? ==> read == Ok(objects[i].data)
  {
    hide IndexBytes, EntriesOf, PackBytes, Loaded, ReadRecord, ReadBlob, Find, ParseIndex;
    CreatedIndexLoads(c, objects);
    ReadsAtOwnOffset(c, objects, i);
    FoundAtOwnOffset(c, objects, i);
    ReadsWhereFound(c, PackBytes(c, objects), Loaded(c, objects), objects[i].hash);
    assert 12 + |Records(c, objects[..i])| < U64_SIZE;
  }

  lemma ReadsAtOwnOffset(c: Codec, objects: seq<Blob>, i: nat)
    requires Lawful(c) && i < |objects|
    requires |c.compress(objects[i].data)| < U32_SIZE
    ensures 12 + |Records(c, objects[..i])| <= |PackBytes(c, objects)|
    ensures ReadRecord(c, PackBytes(c, objects), 12 + |Records(c, objects[..i])|, objects[i].hash) == Ok(objects[i].data) <==>
            c.hash(objects[i].data) == objects[i].hash && |objects[i].data| <= MAX_DECOMPRESSED
    ensures var read := ReadRecord(c, PackBytes(c, objects), 12 + |Records(c, objects[..i])|, objects[i].hash);
            read.Ok? ==> read == Ok(objects[i].data)
  {
    hide Record, Records, ReadRecord;
    var pack, all := PackBytes(c, objects), Records(c, objects);
    RecordsAt(c, objects, i);
    var p := |Records(c, objects[..i])|;
    var r := Record(c, objects[i]);
    assert pack[12..12 + |all|] == all;
    SliceOfSlice(pack, 12, all, p, p + |r|);
    RecordReadsBack(c, pack, 12 + p, objects[i]);
  }

  const RECORD_LIMIT := 41 + 2 * MAX_DECOMPRESSED

  /** Under the laws, records of data within the cap are short. */
  lemma {:induction false} RecordsBound(c: Codec, objects: seq<Blob>)
    requires Lawful(c)
    requires forall o | o in objects :: |o.data| <= MAX_DECOMPRESSED
    ensures |Records(c, objects)| <= |objects| * RECORD_LIMIT
  {
    if objects != [] {
      RecordsBound(c, objects[..|objects| - 1]);
      assert objects[|objects| - 1] in objects;
      assert |c.compress(objects[|objects| - 1].data)| <= 2 * MAX_DECOMPRESSED;
    }
  }

  lemma PackBytesFit(c: Codec, objects: seq<Blob>)
    requires Lawful(c) && |objects| < U32_SIZE
    requires forall o | o in objects :: |o.data| <= MAX_DECOMPRESSED
    ensures |PackBytes(c, objects)| < U64_SIZE
  {
    RecordsBound(c, objects);
    var n: nat := |objects|;
    assert RECORD_LIMIT == 2147483689;
    assert n * RECORD_LIMIT <= 4294967295 * 2147483689;
  }

  /** Objects that `create` can store: fewer than 2^32, distinct, each within
      the cap and addressed by its own hash. */
  ghost predicate Packable(c: Codec, objects: seq<Blob>) {
    && 0 < |objects| < U32_SIZE
    && DistinctDigests(objects)
    && forall o | o in objects :: |o.data| <= MAX_DECOMPRESSED && c.hash(o.data) == o.hash
  }

  lemma SortedHashes(c: Codec, objects: seq<Blob>, sorted: seq<IndexEntry>)
    requires DistinctDigests(objects)
    requires multiset(sorted) == multiset(EntriesOf(c, objects))
    ensures Hashes(PackIndex(sorted)) == (set o | o in objects :: o.hash)
  {
    var es := EntriesOf(c, objects);
    EntriesDistinct(c, objects);
    forall h | h in Hashes(PackIndex(sorted)) ensures exists o | o in objects :: o.hash == h {
      var k :| 0 <= k < |sorted| && sorted[k].hash == h;
      var i := ElementMoves(sorted, es, k);
      assert objects[i] in objects;
    }
    forall o | o in objects ensures o.hash in Hashes(PackIndex(sorted)) {
      var i :| 0 <= i < |objects| && objects[i] == o;
      var k := ElementMoves(es, sorted, i);
      assert sorted[k] in sorted;
    }
  }

  /** The round trip without side conditions on sizes: the index loads, lists
      exactly the objects' digests, and every object reads back. */
  lemma PackableRoundTrip(c: Codec, objects: seq<Blob>)
    requires Lawful(c) && Packable(c, objects)
    ensures ParseIndex(IndexBytes(EntriesOf(c, objects))) == Ok(Loaded(c, objects))
    ensures Hashes(Loaded(c, objects)) == (set o | o in objects :: o.hash)
    ensures forall o | o in objects :: ReadBlob(c, PackBytes(c, objects), Loaded(c, objects), o.hash) == Ok(o.data)
  {
    CreatedIndexLoads(c, objects);
    assert Stored(c, objects) == EntriesOf(c, objects);
    SortedHashes(c, objects, Sort(Stored(c, objects), HashKey));
    PackBytesFit(c, objects);
    forall o | o in objects
      ensures ReadBlob(c, PackBytes(c, objects), Loaded(c, objects), o.hash) == Ok(o.data)
    {
      var i :| 0 <= i < |objects| && objects[i] == o;
      assert |c.compress(o.data)| <= 2 * MAX_DECOMPRESSED;
      PackRoundTrip(c, objects, i);
    }
  }
}

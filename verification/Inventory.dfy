/** What a file tree stores: which packs are indexed, which digests they hold,
    and when the tree is truthful. */
module Inventory {
  import opened Bytes
  import opened Codecs
  import opened Disks
  import opened Hex
  import opened PackFormat
  import opened PackTheorems
  import opened Sorting

  /** `pack-`. */
  const PACK_PREFIX: Name := [112, 97, 99, 107, 45]

  function StemOf(d: Digest): Name {
    PACK_PREFIX + HexOf(d)
  }

  lemma StemOfInjective(d: Digest, e: Digest)
    requires StemOf(d) == StemOf(e)
    ensures d == e
  {
    assert HexOf(d) == StemOf(d)[5..];
    assert HexOf(e) == StemOf(e)[5..];
    HexInjective(d, e);
  }

  /** The content-derived index and name of the pack `create` writes. */
  function CreatedIndex(c: Codec, objects: seq<Blob>): Bytes {
    IndexBytes(EntriesOf(c, objects))
  }

  function PackName(c: Codec, objects: seq<Blob>): Name {
    StemOf(c.hash(CreatedIndex(c, objects)))
  }

  /** The two effects of `create`, in order. */
  function CreateSteps(c: Codec, objects: seq<Blob>): seq<Step> {
    [Write(Pack(PackName(c, objects)), PackBytes(c, objects)),
     Write(Idx(PackName(c, objects)), CreatedIndex(c, objects))]
  }

  predicate Paired(f: Files, s: Name) {
    Pack(s) in f && Idx(s) in f
  }

  /** A pack with an index that loads. */
  predicate Indexed(f: Files, s: Name) {
    Paired(f, s) && ParseIndex(f[Idx(s)]).Ok?
  }

  function HashesOf(f: Files, s: Name): set<Digest> {
    if Indexed(f, s) then Hashes(ParseIndex(f[Idx(s)]).value) else {}
  }

  ghost function PackedHashes(f: Files): set<Digest> {
    set s, h | s in PackStems(f) && h in HashesOf(f, s) :: h
  }

  /** The digests physically present, loose or packed. */
  ghost function Present(f: Files): set<Digest> {
    LooseHashes(f) + PackedHashes(f)
  }

  lemma PackedHashesExact(f: Files)
    ensures forall h :: h in PackedHashes(f) <==> exists s :: Indexed(f, s) && h in HashesOf(f, s)
  {
    PackStemsExact(f);
  }

  lemma PresentExact(f: Files)
    ensures forall h: Digest :: h in Present(f) <==>
              (Loose(h) in f || exists s :: Indexed(f, s) && h in HashesOf(f, s))
  {
    LooseHashesExact(f);
    PackedHashesExact(f);
  }

  lemma HashesPresent(f: Files, s: Name)
    ensures HashesOf(f, s) <= PackedHashes(f) <= Present(f)
  {
    PackedHashesExact(f);
  }

  /** A loose file that decodes to the content of its name. */
  ghost predicate GoodLoose(c: Codec, g: Contents, h: Digest, raw: Bytes) {
    Decode(c, raw) == Ok(g(h)) && c.hash(g(h)) == h
  }

  /** An indexed pack that is named after its index and from which every
      listed digest reads back as its content. */
  ghost predicate GoodPack(c: Codec, g: Contents, s: Name, pack: Bytes, idx: Bytes) {
    && ParseIndex(idx).Ok?
    && s == StemOf(c.hash(idx))
    && InPlay(c, g, idx)
    && forall h | h in Hashes(ParseIndex(idx).value) :: ReadBlob(c, pack, ParseIndex(idx).value, h) == Ok(g(h))
  }

  ghost predicate WellFormed(c: Codec, g: Contents, f: Files) {
    && (forall h: Digest | Loose(h) in f :: GoodLoose(c, g, h, f[Loose(h)]))
    && (forall s | Indexed(f, s) :: GoodPack(c, g, s, f[Pack(s)], f[Idx(s)]))
  }

  /** Every pack with an index has one that loads; without this a fresh pack
      cache cannot be built and every packed read fails. */
  ghost predicate AllIndexed(f: Files) {
    forall s | Paired(f, s) :: Indexed(f, s)
  }

  /** Whatever pack a store with empty caches consults, verified `get_blob(h)`
      returns `d`. */
  ghost predicate ReadsAs(c: Codec, f: Files, h: Digest, d: Bytes) {
    if Loose(h) in f then
      Decode(c, f[Loose(h)]) == Ok(d) && c.hash(d) == h
    else
      && AllIndexed(f)
      && (exists s :: Indexed(f, s) && h in HashesOf(f, s))
      && forall s | Indexed(f, s) && h in HashesOf(f, s) ::
           ReadBlob(c, f[Pack(s)], ParseIndex(f[Idx(s)]).value, h) == Ok(d)
  }

  /** In a well-formed tree whose indexes all load, every present digest reads
      as its content, and nothing else reads at all. */
  lemma WellFormedReads(c: Codec, g: Contents, f: Files, h: Digest)
    requires WellFormed(c, g, f) && AllIndexed(f)
    ensures h in Present(f) ==> ReadsAs(c, f, h, g(h))
    ensures h !in Present(f) ==> forall d :: !ReadsAs(c, f, h, d)
  {
    PresentExact(f);
    if h in Present(f) && Loose(h) !in f {
      forall s | Indexed(f, s) && h in HashesOf(f, s)
        ensures ReadBlob(c, f[Pack(s)], ParseIndex(f[Idx(s)]).value, h) == Ok(g(h))
      {
        assert GoodPack(c, g, s, f[Pack(s)], f[Idx(s)]);
      }
    }
  }

  lemma PackContent(c: Codec, g: Contents, f: Files, s: Name, h: Digest)
    requires WellFormed(c, g, f) && h in HashesOf(f, s)
    ensures Indexed(f, s)
    ensures ReadBlob(c, f[Pack(s)], ParseIndex(f[Idx(s)]).value, h) == Ok(g(h))
    ensures c.hash(g(h)) == h && |g(h)| <= MAX_DECOMPRESSED
  {
    assert GoodPack(c, g, s, f[Pack(s)], f[Idx(s)]);
  }

  lemma {:induction false} HashesBelow(es: seq<IndexEntry>)
    ensures |(set e | e in es :: e.hash)| <= |es|
  {
    if es != [] {
      var n := |es| - 1;
      assert es == es[..n] + [es[n]];
      assert (set e | e in es :: e.hash) == (set e | e in es[..n] :: e.hash) + {es[n].hash};
      HashesBelow(es[..n]);
    }
  }

  /** A parsed index lists fewer than 2^32 digests. */
  lemma HashesOfBelow(f: Files, s: Name)
    ensures |HashesOf(f, s)| < U32_SIZE
  {
    if Indexed(f, s) {
      LoadedIndexSorted(f[Idx(s)]);
      HashesBelow(ParseIndex(f[Idx(s)]).value.entries);
    }
  }

  /* Frames: a pack depends on its two files only */

  predicate SameAt(f: Files, f': Files, p: Path) {
    (p in f <==> p in f') && (p in f ==> f[p] == f'[p])
  }

  predicate SamePack(f: Files, f': Files, s: Name) {
    SameAt(f, f', Pack(s)) && SameAt(f, f', Idx(s))
  }

  lemma SamePackHashes(f: Files, f': Files, s: Name)
    requires SamePack(f, f', s)
    ensures Indexed(f, s) <==> Indexed(f', s)
    ensures HashesOf(f, s) == HashesOf(f', s)
  {
  }

  /** Every file under `objects/` in the smaller tree is in the larger one. */
  ghost predicate Within(f': Files, f: Files) {
    forall p | p in f' && !p.Trash? :: p in f && f[p] == f'[p]
  }

  lemma WithinPack(f': Files, f: Files, s: Name)
    requires Within(f', f)
    ensures Indexed(f', s) ==> Indexed(f, s) && SamePack(f, f', s) && HashesOf(f', s) == HashesOf(f, s)
  {
  }

  /** Losing files keeps a tree well-formed and adds no digest. */
  lemma WithinWellFormed(c: Codec, g: Contents, f': Files, f: Files)
    requires WellFormed(c, g, f) && Within(f', f)
    ensures WellFormed(c, g, f')
    ensures Present(f') <= Present(f)
  {
    forall s | Indexed(f', s) ensures GoodPack(c, g, s, f'[Pack(s)], f'[Idx(s)]) {
      WithinPack(f', f, s);
      assert GoodPack(c, g, s, f[Pack(s)], f[Idx(s)]);
    }
    PresentExact(f);
    PresentExact(f');
    forall h | h in Present(f') ensures h in Present(f) {
      if Loose(h) !in f' {
        var s :| Indexed(f', s) && h in HashesOf(f', s);
        WithinPack(f', f, s);
      }
    }
  }

  /* Fresh packs */

  function Objects(g: Contents, keep: seq<Digest>): (objects: seq<Blob>)
    ensures |objects| == |keep|
    ensures forall i | 0 <= i < |keep| :: objects[i] == Blob(keep[i], g(keep[i]))
  {
    if keep == [] then [] else
      Objects(g, keep[..|keep| - 1]) + [Blob(keep[|keep| - 1], g(keep[|keep| - 1]))]
  }

  /** A pack created from correctly addressed content is good, and lists
      exactly the digests it was created from. */
  lemma CreatedPackGood(c: Codec, g: Contents, keep: seq<Digest>)
    requires Lawful(c) && Packable(c, Objects(g, keep))
    requires InPlay(c, g, CreatedIndex(c, Objects(g, keep)))
    ensures var objects := Objects(g, keep);
            && GoodPack(c, g, PackName(c, objects), PackBytes(c, objects), CreatedIndex(c, objects))
            && Hashes(ParseIndex(CreatedIndex(c, objects)).value) == Elements(keep)
  {
    var objects := Objects(g, keep);
    PackableRoundTrip(c, objects);
    ObjectHashes(g, keep);
    forall h | h in Elements(keep)
      ensures ReadBlob(c, PackBytes(c, objects), Loaded(c, objects), h) == Ok(g(h))
    {
      var i :| 0 <= i < |keep| && keep[i] == h;
      assert objects[i] in objects;
    }
  }

  lemma ObjectHashes(g: Contents, keep: seq<Digest>)
    ensures (set o | o in Objects(g, keep) :: o.hash) == Elements(keep)
  {
    var objects := Objects(g, keep);
    forall h | h in keep ensures exists o | o in objects :: o.hash == h {
      var i :| 0 <= i < |keep| && keep[i] == h;
      assert objects[i] in objects;
    }
  }
}

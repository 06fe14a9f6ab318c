/** The file tree under the store root, changed one file at a time. */
module Disks {
  import opened Bytes
  import opened Layout
  import opened Sorting

  /** `Loose(h)` is `objects/<2 hex>/<62 hex>`, and `Alias(h, e)` any other file
      `e` under `objects/` that listing reports under `h` although no read of `h`
      looks there. `Pack` and `Idx` are `objects/pack/<stem>.pack` and `.idx`
      with names that are UTF-8, `Trash(p)` mirrors `p` under `trash/`, and
      `Outside` is any file the store neither lists nor reads. */
  datatype Path =
    | Loose(h: Digest)
    | Alias(h: Digest, entry: Entry)
    | Pack(stem: Name)
    | Idx(stem: Name)
    | Trash(inner: Path)
    | Outside(name: Name)

  type Files = map<Path, Bytes>

  /** A single-file effect: `fs::write`, `fs::remove_file`, `fs::rename`. */
  datatype Step =
    | Write(path: Path, data: Bytes)
    | Remove(path: Path)
    | Rename(from: Path, to: Path)

  function Apply(f: Files, s: Step): Files {
    match s
    case Write(p, data) => f[p := data]
    case Remove(p) => f - {p}
    case Rename(p, q) => if p in f then (f - {p})[q := f[p]] else f
  }

  function ApplyAll(f: Files, steps: seq<Step>): Files
    decreases |steps|
  {
    if steps == [] then f else ApplyAll(Apply(f, steps[0]), steps[1..])
  }

  lemma {:induction false} ApplyAllConcat(f: Files, a: seq<Step>, b: seq<Step>)
    ensures ApplyAll(f, a + b) == ApplyAll(ApplyAll(f, a), b)
    decreases |a|
  {
    if a == [] {
      assert a + b == b;
    } else {
      assert (a + b)[1..] == a[1..] + b;
      ApplyAllConcat(Apply(f, a[0]), a[1..], b);
    }
  }

  lemma ApplyOne(f: Files, s: Step)
    ensures ApplyAll(f, [s]) == Apply(f, s)
  {
    assert [s][1..] == [];
  }

  lemma ApplyTwo(f: Files, s: Step, t: Step)
    ensures ApplyAll(f, [s, t]) == Apply(Apply(f, s), t)
  {
    assert [s, t] == [s] + [t];
    ApplyAllConcat(f, [s], [t]);
    ApplyOne(f, s);
    ApplyOne(Apply(f, s), t);
  }

  /** What the prefix of a concatenation leaves. */
  lemma ApplyPrefix(f: Files, a: seq<Step>, b: seq<Step>, k: nat)
    requires k <= |a + b|
    ensures ApplyAll(f, (a + b)[..k]) ==
            if k <= |a| then ApplyAll(f, a[..k]) else ApplyAll(ApplyAll(f, a), b[..k - |a|])
  {
    if k <= |a| {
      assert (a + b)[..k] == a[..k];
    } else {
      assert (a + b)[..k] == a + b[..k - |a|];
      ApplyAllConcat(f, a, b[..k - |a|]);
    }
  }

  const EXT_PACK: Bytes := [46, 112, 97, 99, 107]
  const EXT_IDX: Bytes := [46, 105, 100, 120]

  /** The order in which pack files are listed: by their file names. */
  function StemKey(stem: Name): Bytes {
    stem + EXT_PACK
  }

  /** The file name of a file in the pack directory. */
  function PathKey(p: Path): Bytes {
    match p
    case Pack(s) => s + EXT_PACK
    case Idx(s) => s + EXT_IDX
    case _ => []
  }

  lemma StemKeyInjective(s: Name, t: Name)
    requires StemKey(s) == StemKey(t)
    ensures s == t
  {
    assert s == StemKey(s)[..|StemKey(s)| - 5];
    assert t == StemKey(t)[..|StemKey(t)| - 5];
  }

  lemma PathKeyInjective(p: Path, q: Path)
    requires (p.Pack? || p.Idx?) && (q.Pack? || q.Idx?)
    requires PathKey(p) == PathKey(q)
    ensures p == q
  {
    var k := PathKey(p);
    assert k[|k| - 1] == if p.Pack? then 107 else 120;
    assert k[|k| - 1] == if q.Pack? then 107 else 120;
    var n := if p.Pack? then 5 else 4;
    assert p.stem == k[..|k| - n];
    assert q.stem == k[..|k| - n];
  }

  ghost function LooseHashes(f: Files): set<Digest> {
    set p | p in f && p.Loose? :: p.h
  }

  /** Listing reports the file under this digest. */
  predicate Names(p: Path, h: Digest) {
    (p.Loose? || p.Alias?) && p.h == h
  }

  ghost function NamersOf(f: Files, h: Digest): set<Path> {
    set p | p in f && Names(p, h)
  }

  /** The digests that listing reports, whether they can be read or not. */
  ghost function ListedHashes(f: Files): set<Digest> {
    set p | p in f && (p.Loose? || p.Alias?) :: p.h
  }

  lemma ListedHashesExact(f: Files)
    ensures forall h: Digest :: h in ListedHashes(f) <==> exists p :: p in f && Names(p, h)
    ensures LooseHashes(f) <= ListedHashes(f)
  {
    forall h: Digest ensures h in ListedHashes(f) <==> exists p :: p in f && Names(p, h) {
      if h in ListedHashes(f) {
        var p :| p in f && (p.Loose? || p.Alias?) && p.h == h;
        assert Names(p, h);
      }
    }
  }

  /** `list_blobs`: sorted, each digest once for every file that names it. */
  ghost predicate IsListing(f: Files, hashes: seq<Digest>) {
    && Sorted(hashes, DigestKey)
    && forall h: Digest :: multiset(hashes)[h] == |NamersOf(f, h)|
  }

  lemma ListingElements(f: Files, hashes: seq<Digest>)
    requires IsListing(f, hashes)
    ensures Elements(hashes) == ListedHashes(f)
  {
    ListedHashesExact(f);
    forall h: Digest ensures h in hashes <==> h in ListedHashes(f) {
      assert h in hashes <==> multiset(hashes)[h] > 0;
      if p :| p in f && Names(p, h) { assert p in NamersOf(f, h); }
      if NamersOf(f, h) != {} {
        var p :| p in NamersOf(f, h);
      }
    }
  }

  ghost predicate Unaliased(f: Files) {
    forall p | p in f :: !p.Alias?
  }

  /** Without aliases listing reports each loose blob once. */
  lemma UnaliasedListing(f: Files, hashes: seq<Digest>)
    requires IsListing(f, hashes) && Unaliased(f)
    ensures ListedHashes(f) == LooseHashes(f)
    ensures hashes == SortedDigests(LooseHashes(f))
  {
    ListingElements(f, hashes);
    forall i, j | 0 <= i < j < |hashes| ensures hashes[i] != hashes[j] {
      if hashes[i] == hashes[j] {
        TwiceInMultiset(hashes, i, j);
        SubsetSize(NamersOf(f, hashes[i]), {Loose(hashes[i])});
      }
    }
    SortedDistinct(hashes, DigestKey);
    assert forall h :: h in hashes <==> h in Elements(hashes);
    StrictUnique(hashes, SortedDigests(LooseHashes(f)), DigestKey);
  }

  ghost function PackStems(f: Files): set<Name> {
    set p | p in f && p.Pack? :: p.stem
  }

  /** A `.pack` without its `.idx`, or an `.idx` without its `.pack`. */
  ghost predicate Orphan(f: Files, p: Path) {
    && p in f
    && ((p.Pack? && Idx(p.stem) !in f) || (p.Idx? && Pack(p.stem) !in f))
  }

  ghost function Orphans(f: Files): set<Path> {
    set p | p in f && Orphan(f, p)
  }

  ghost function SortedDigests(s: set<Digest>): (hs: seq<Digest>)
    ensures StrictlySorted(hs, DigestKey)
    ensures forall h :: h in hs <==> h in s
    ensures |hs| == |s|
  {
    SortedSeq(s, DigestKey)
  }

  /** `list_packs`: the stems of the pack files in file-name order. */
  ghost function Listing(f: Files): (stems: seq<Name>)
    ensures StrictlySorted(stems, StemKey)
    ensures forall s :: s in stems <==> Pack(s) in f
  {
    StemsInjective(PackStems(f));
    assert forall s: Name :: s in PackStems(f) <==> Pack(s) in f by { PackStemsExact(f); }
    SortedSeq(PackStems(f), StemKey)
  }

  lemma PackStemsExact(f: Files)
    ensures forall s: Name :: s in PackStems(f) <==> Pack(s) in f
  {
    forall s: Name ensures s in PackStems(f) <==> Pack(s) in f {
      if Pack(s) in f { assert Pack(s).stem in PackStems(f); }
    }
  }

  lemma LooseHashesExact(f: Files)
    ensures forall h: Digest :: h in LooseHashes(f) <==> Loose(h) in f
  {
    forall h: Digest ensures h in LooseHashes(f) <==> Loose(h) in f {
      if Loose(h) in f { assert Loose(h).h in LooseHashes(f); }
    }
  }

  lemma StemsInjective(s: set<Name>)
    ensures Injective(s, StemKey)
  {
    forall x, y | x in s && y in s && StemKey(x) == StemKey(y) ensures x == y {
      StemKeyInjective(x, y);
    }
  }

  /** The orphans in file-name order. */
  ghost function OrphanList(f: Files): (ps: seq<Path>)
    ensures StrictlySorted(ps, PathKey)
    ensures forall p :: p in ps <==> Orphan(f, p)
  {
    OrphansInjective(Orphans(f));
    SortedSeq(Orphans(f), PathKey)
  }

  lemma OrphansInjective(s: set<Path>)
    requires forall p | p in s :: p.Pack? || p.Idx?
    ensures Injective(s, PathKey)
  {
    forall x, y | x in s && y in s && PathKey(x) == PathKey(y) ensures x == y {
      PathKeyInjective(x, y);
    }
  }

  ghost function NamersAmong(ps: set<Path>, h: Digest): set<Path> {
    set p | p in ps && Names(p, h)
  }

  lemma NamersNext(ps: set<Path>, p: Path, h: Digest)
    requires p !in ps
    ensures |NamersAmong(ps + {p}, h)| == |NamersAmong(ps, h)| + if Names(p, h) then 1 else 0
  {
    if Names(p, h) {
      assert NamersAmong(ps + {p}, h) == NamersAmong(ps, h) + {p};
    } else {
      assert NamersAmong(ps + {p}, h) == NamersAmong(ps, h);
    }
  }

  /** The mutable tree. `log` records every effect in order, so a crash leaves
      what some prefix of it makes of the initial tree; `refusals` records the
      removals that were tried in vain. */
  class Disk {
    var files: Files
    ghost var log: seq<Step>
    ghost var refusals: seq<Path>

    constructor (initial: Files)
      ensures files == initial && log == [] && refusals == []
    {
      files, log, refusals := initial, [], [];
    }

    method WriteFile(p: Path, data: Bytes)
      modifies this`files, this`log
      ensures files == Apply(old(files), Write(p, data)) && log == old(log) + [Write(p, data)]
    {
      files := files[p := data];
      log := log + [Write(p, data)];
    }

    method RemoveFile(p: Path)
      requires p in files
      modifies this`files, this`log
      ensures files == Apply(old(files), Remove(p)) && log == old(log) + [Remove(p)]
    {
      files := files - {p};
      log := log + [Remove(p)];
    }

    method RenameFile(p: Path, q: Path)
      requires p in files
      modifies this`files, this`log
      ensures files == Apply(old(files), Rename(p, q)) && log == old(log) + [Rename(p, q)]
    {
      files := (files - {p})[q := files[p]];
      log := log + [Rename(p, q)];
    }

    /** A removal that the file system may refuse. */
    method TryRemove(p: Path) returns (ok: bool)
      requires p in files
      modifies this
      ensures ok ==> files == Apply(old(files), Remove(p)) && log == old(log) + [Remove(p)] && refusals == old(refusals)
      ensures !ok ==> files == old(files) && log == old(log) && refusals == old(refusals) + [p]
    {
      ok := *;
      if ok {
        RemoveFile(p);
      } else {
        refusals := refusals + [p];
      }
    }

    /** Reading the directories in any order, then sorting. */
    method ListBlobs() returns (hashes: seq<Digest>)
      ensures IsListing(files, hashes) && InOrder(hashes, DigestKey)
    {
      var found: seq<Digest> := [];
      var rest := files.Keys;
      ghost var seen: set<Path> := {};
      while rest != {}
        invariant seen !! rest && seen + rest == files.Keys
        invariant forall h: Digest :: multiset(found)[h] == |NamersAmong(seen, h)|
        decreases rest
      {
        var p :| p in rest;
        forall h: Digest ensures |NamersAmong(seen + {p}, h)| == |NamersAmong(seen, h)| + if Names(p, h) then 1 else 0 {
          NamersNext(seen, p, h);
        }
        rest, seen := rest - {p}, seen + {p};
        if p.Loose? || p.Alias? {
          found := found + [p.h];
        }
      }
      hashes := Sort(found, DigestKey);
      SortSorted(found, DigestKey);
      SortedInOrder(hashes, DigestKey);
      assert seen == files.Keys;
      forall h: Digest ensures NamersOf(files, h) == NamersAmong(seen, h) {
      }
    }

    method ListPacks() returns (stems: seq<Name>)
      ensures stems == Listing(files) && StrictlyInOrder(stems, StemKey)
    {
      var found: seq<Name> := [];
      var rest := files.Keys;
      ghost var seen: set<Path> := {};
      while rest != {}
        invariant seen !! rest && seen + rest == files.Keys
        invariant forall s: Name :: s in found <==> Pack(s) in seen
        invariant forall i, j | 0 <= i < j < |found| :: found[i] != found[j]
        decreases rest
      {
        var p :| p in rest;
        rest, seen := rest - {p}, seen + {p};
        if p.Pack? {
          found := found + [p.stem];
        }
      }
      stems := Sort(found, StemKey);
      PackStemsExact(files);
      StemsInjective(PackStems(files));
      SortedDistinctSeq(found, PackStems(files), StemKey);
      StrictInOrder(stems, StemKey);
    }
  }

  lemma SortedDistinctSeq<T(!new)>(xs: seq<T>, s: set<T>, key: T -> Bytes)
    requires Injective(s, key)
    requires forall x :: x in xs <==> x in s
    requires forall i, j | 0 <= i < j < |xs| :: xs[i] != xs[j]
    ensures Sort(xs, key) == SortedSeq(s, key)
  {
    var ys := Sort(xs, key);
    SortSorted(xs, key);
    SameElements(ys, xs);
    forall i, j | 0 <= i < j < |ys| ensures key(ys[i]) != key(ys[j]) {
      if key(ys[i]) == key(ys[j]) {
        var k := ElementMoves(ys, xs, i);
        var l := ElementMoves(ys, xs, j);
        assert xs[k] in s && xs[l] in s;
        TwiceInMultiset(ys, i, j);
        CountAtMostOnce(xs, ys[i]);
      }
    }
    SortedDistinct(ys, key);
    StrictUnique(ys, SortedSeq(s, key), key);
  }
}

/** Why the tree may name files by the digests they are listed under. */
module LooseNames {
  import opened Bytes
  import opened Disks
  import opened Layout
  import opened Sorting

  /** The path that stands for a file whose name parses. */
  function PathOf(e: Entry): Path
    requires NamedBy(e).Some?
  {
    var h := NamedBy(e).value;
    if e == BlobPath(h) then Loose(h) else Path.Alias(h, e)
  }

  /** A tree whose named files are these entries of the file system. */
  ghost predicate StandsFor(f: Files, tree: set<Entry>) {
    && (forall e | e in tree && NamedBy(e).Some? :: PathOf(e) in f)
    && (forall p | p in f && (p.Loose? || p.Alias?) :: exists e :: e in tree && NamedBy(e).Some? && PathOf(e) == p)
  }

  /** What listing makes of the file names is a listing of the tree, so
      `ListBlobs` on a disk is what it is on the names. */
  lemma ListingOfNames(f: Files, tree: set<Entry>, hashes: seq<Digest>)
    requires StandsFor(f, tree)
    requires Sorted(hashes, DigestKey)
    requires forall h: Digest :: multiset(hashes)[h] == |Namers(tree, h)|
    ensures IsListing(f, hashes)
  {
    forall h: Digest ensures |Namers(tree, h)| == |NamersOf(f, h)| {
      forall p | p in NamersOf(f, h) ensures exists e :: e in Namers(tree, h) && PathOf(e) == p {
        var e :| e in tree && NamedBy(e).Some? && PathOf(e) == p;
        assert e in Namers(tree, h);
      }
      PathsOfSize(Namers(tree, h), NamersOf(f, h), h);
    }
  }

  /** Different files have different paths. */
  lemma PathOfInjective(d: Entry, e: Entry, h: Digest)
    requires NamedBy(d) == Some(h) && NamedBy(e) == Some(h)
    ensures PathOf(d) == PathOf(e) ==> d == e
  {
    hide NamedBy, BlobPath;
  }

  lemma {:induction false} PathsOfSize(es: set<Entry>, ps: set<Path>, h: Digest)
    requires forall e | e in es :: NamedBy(e) == Some(h) && PathOf(e) in ps
    requires forall p | p in ps :: exists e :: e in es && PathOf(e) == p
    ensures |es| == |ps|
  {
    hide NamedBy, PathOf;
    if es != {} {
      var e :| e in es;
      var rest, p := es - {e}, PathOf(e);
      forall d | d in rest ensures PathOf(d) in ps - {p} {
        PathOfInjective(d, e, h);
      }
      forall q | q in ps - {p} ensures exists d :: d in rest && PathOf(d) == q {
        var d :| d in es && PathOf(d) == q;
        assert d in rest;
      }
      PathsOfSize(rest, ps - {p}, h);
    } else {
      assert forall p :: p !in ps;
    }
  }
}

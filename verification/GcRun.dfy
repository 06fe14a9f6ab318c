/** Mark and sweep over a store (src/gc.rs). */
module GcRun {
  import opened Bytes
  import opened Codecs
  import opened Disks
  import opened Errors
  import opened GcBytes
  import opened GcEvict
  import opened GcModel
  import opened GcPlanning
  import opened GcTrash
  import opened Inventory
  import opened PackFiles
  import opened PackFormat
  import opened Sorting
  import opened Store
  import opened StoreModel

  /* Mark */

  /** The roots that are listed or packed, and the others in order. It sees packs
      through the pack cache. */
  method MarkLive(store: BlobStore, roots: set<Digest>) returns (r: Result<LiveSet, CasError>)
    modifies store`packCache
    ensures Next(store.Cfg(), old(store.Now()), Mark(roots), Marked(r), store.Now())
  {
    hide ParseIndex, ListedHashes, IsListing, CachedHashes, CacheOf, SortedDigests, InOrder, Next, Seen;
    ghost var was := store.Now();
    var listed := store.disk.ListBlobs();
    ListingElements(store.disk.files, listed);
    var cache := store.WithPackCache();
    if cache.Err? {
      r := Err(InPack(cache.error));
      MarkIsNext(store.Cfg(), was, roots, r, store.Now());
      return;
    }
    var packed := AllHashes(cache.value);
    ghost var present := Seen(store.disk.files, cache.value);
    SeenMeans(store.disk.files, cache.value, listed, packed);
    var live, missing := Classify(roots, listed, packed, present);
    DistinctDigestsSorted(missing, roots - present);
    r := Ok(LiveSet(live, Sort(missing, DigestKey)));
    MarkIsNext(store.Cfg(), was, roots, r, store.Now());
  }

  lemma SeenMeans(f: Files, cache: PackCache, listed: seq<Digest>, packed: seq<Digest>)
    requires Elements(listed) == ListedHashes(f) && forall h :: h in packed <==> h in CachedHashes(cache)
    ensures forall h: Digest :: h in Seen(f, cache) <==> h in listed || h in packed
  {
    hide ListedHashes, CachedHashes;
    assert forall h: Digest :: h in listed <==> h in Elements(listed);
  }

  lemma MarkIsNext(cfg: Config, s: State, roots: set<Digest>, r: Result<LiveSet, CasError>, s': State)
    requires MarkNext(s, roots, r, s')
    ensures Next(cfg, s, Mark(roots), Marked(r), s')
  {
    hide MarkNext;
  }

  method Classify(roots: set<Digest>, listed: seq<Digest>, packed: seq<Digest>, ghost present: set<Digest>)
    returns (live: set<Digest>, missing: seq<Digest>)
    requires forall h: Digest :: h in present <==> h in listed || h in packed
    ensures live == roots * present
    ensures Distinct(missing) && forall h :: h in missing <==> h in roots - present
  {
    live, missing := {}, [];
    var rest := roots;
    ghost var seen: set<Digest> := {};
    while rest != {}
      invariant seen !! rest && seen + rest == roots
      invariant forall h :: h in live <==> h in seen && h in present
      invariant forall h :: h in missing <==> h in seen && h !in present
      invariant Distinct(missing)
      decreases rest
    {
      var h :| h in rest;
      if h in listed || h in packed {
        live := live + {h};
      } else {
        missing := missing + [h];
      }
      rest, seen := rest - {h}, seen + {h};
    }
    assert seen == roots;
  }

  lemma DistinctDigestsSorted(hs: seq<Digest>, s: set<Digest>)
    requires Distinct(hs) && forall h :: h in hs <==> h in s
    ensures Sort(hs, DigestKey) == SortedDigests(s)
  {
    SortedDistinctSeq(hs, s, DigestKey);
  }

  /* Plan */

  /** The packs with an index, the packs whose index does not load, and the
      orphaned packs, in listing order. */
  method TakeInventory(disk: Disk) returns (packs: seq<PackState>, unreadable: seq<Name>, orphans: seq<Path>)
    ensures packs == PackStates(disk.files, Listing(disk.files))
    ensures unreadable == Unreadable(disk.files, Listing(disk.files))
    ensures forall p :: p in orphans <==> p.Pack? && Orphan(disk.files, p)
    ensures Distinct(orphans)
  {
    hide ParseIndex, Listing, SortedDigests, Dedup, HashList, Hashes;
    var stems := disk.ListPacks();
    packs, unreadable, orphans := [], [], [];
    StrictDistinct(stems, StemKey);
    for i := 0 to |stems|
      invariant packs == PackStates(disk.files, stems[..i])
      invariant unreadable == Unreadable(disk.files, stems[..i])
      invariant forall p :: p in orphans <==> p.Pack? && p.stem in stems[..i] && Orphan(disk.files, p)
      invariant Distinct(orphans)
    {
      var s := stems[i];
      PrefixNext(stems, i);
      if Idx(s) !in disk.files {
        orphans := orphans + [Pack(s)];
      } else {
        var index := LoadIndex(disk.files[Idx(s)]);
        if index.Err? {
          unreadable := unreadable + [s];
        } else {
          DistinctHashList(disk.files[Idx(s)]);
          packs := packs + [PackState(s, Dedup(HashList(index.value)))];
        }
      }
    }
    assert stems[..|stems|] == stems;
  }

  /** Adding the indexes without a pack, then sorting. */
  method AllOrphans(disk: Disk, packOrphans: seq<Path>) returns (orphans: seq<Path>)
    requires forall p :: p in packOrphans <==> p.Pack? && Orphan(disk.files, p)
    requires Distinct(packOrphans)
    ensures orphans == OrphanList(disk.files)
  {
    var found := packOrphans;
    var rest := disk.files.Keys;
    ghost var seen: set<Path> := {};
    while rest != {}
      invariant seen !! rest && seen + rest == disk.files.Keys
      invariant forall p :: p in found <==> Orphan(disk.files, p) && (p.Pack? || p in seen)
      invariant Distinct(found)
      decreases rest
    {
      var p :| p in rest;
      rest, seen := rest - {p}, seen + {p};
      if p.Idx? && Pack(p.stem) !in disk.files {
        found := found + [p];
      }
    }
    OrphansInjective(Orphans(disk.files));
    SortedDistinctSeq(found, Orphans(disk.files), PathKey);
    return Sort(found, PathKey);
  }

  /** The two passes of the coverage rule. */
  method DecidePacks(packs: seq<PackState>, live: set<Digest>, liveLoose: set<Digest>)
      returns (remove: seq<Name>, rewrite: seq<Rewrite>)
    ensures Decision(remove, rewrite) == Decide(packs, live, liveLoose + HealthyHashes(packs, live))
  {
    var covered := liveLoose;
    for i := 0 to |packs|
      invariant covered == liveLoose + HealthyHashes(packs[..i], live)
    {
      assert packs[..i + 1] == packs[..i] + [packs[i]];
      HealthyHashesAppend(packs[..i], packs[i], live);
      if !HasGarbage(packs[i], live) {
        covered := covered + Elements(packs[i].hashes);
      }
    }
    assert packs[..|packs|] == packs;
    ghost var initially := covered;
    remove, rewrite := [], [];
    for i := 0 to |packs|
      invariant var rest := Decide(packs[i..], live, covered);
                Decide(packs, live, initially) == Decision(remove + rest.remove, rewrite + rest.rewrite)
    {
      var p := packs[i];
      ghost var was := covered;
      assert packs[i..][0] == p && packs[i..][1..] == packs[i + 1..];
      DecideStep(packs[i..], live, covered);
      if HasGarbage(p, live) {
        var needed := Filter(p.hashes, live - covered);
        if needed == [] {
          remove := remove + [p.stem];
        } else {
          covered := covered + Elements(needed);
          rewrite := rewrite + [Rewrite(p.stem, needed)];
        }
      }
    }
  }

  lemma HealthyHashesAppend(packs: seq<PackState>, p: PackState, live: set<Digest>)
    ensures HealthyHashes(packs + [p], live) ==
            HealthyHashes(packs, live) + if HasGarbage(p, live) then {} else Elements(p.hashes)
  {
    forall h | h in HealthyHashes(packs, live) ensures h in HealthyHashes(packs + [p], live) {
      var q :| q in packs && !HasGarbage(q, live) && h in q.hashes;
      assert q in packs + [p];
    }
    if !HasGarbage(p, live) {
      assert p in packs + [p];
    }
  }

  ghost predicate Missing(f: Files, paths: seq<Path>) {
    exists i :: 0 <= i < |paths| && paths[i] !in f
  }

  /** Adding up `file_len`, which fails on a missing file. */
  method FileSizes(disk: Disk, paths: seq<Path>) returns (bytes: Option<nat>)
    ensures bytes.None? <==> Missing(disk.files, paths)
    ensures bytes.Some? ==> bytes.value == SumSizes(disk.files, paths)
  {
    var sum: nat := 0;
    for i := 0 to |paths|
      invariant sum == SumSizes(disk.files, paths[..i])
      invariant forall j | 0 <= j < i :: paths[j] in disk.files
    {
      assert paths[..i + 1][..i] == paths[..i];
      if paths[i] !in disk.files {
        return None;
      }
      sum := sum + |disk.files[paths[i]]|;
    }
    assert paths[..|paths|] == paths;
    return Some(sum);
  }

  /** The digests of the indexed packs. */
  method PackedUnion(packs: seq<PackState>) returns (hashes: set<Digest>)
    ensures forall h :: h in hashes <==> exists p :: p in packs && h in p.hashes
  {
    hashes := {};
    for i := 0 to |packs|
      invariant forall h :: h in hashes <==> exists p :: p in packs[..i] && h in p.hashes
    {
      ghost var was := hashes;
      hashes := hashes + Elements(packs[i].hashes);
      assert packs[..i + 1] == packs[..i] + [packs[i]];
      forall h ensures h in hashes <==> exists p :: p in packs[..i + 1] && h in p.hashes {
        if h in packs[i].hashes { assert packs[i] in packs[..i + 1]; }
        if p :| p in packs[..i + 1] && h in p.hashes {
          assert p in packs[..i] || p == packs[i];
        }
      }
    }
    assert packs[..|packs|] == packs;
  }

  lemma PackedUnionExact(f: Files, packs: seq<PackState>, hashes: set<Digest>)
    requires packs == PackStates(f, Listing(f))
    requires forall h :: h in hashes <==> exists p :: p in packs && h in p.hashes
    ensures hashes == PackedHashes(f)
  {
    hide ParseIndex, PackStates;
    StrictDistinct(Listing(f), StemKey);
    PackStatesExact(f, Listing(f));
    PackedHashesExact(f);
    forall h ensures h in hashes <==> h in PackedHashes(f) {
      if h in hashes {
        var p :| p in packs && h in p.hashes;
        assert h in Elements(p.hashes);
      }
      if s :| Indexed(f, s) && h in HashesOf(f, s) {
        var p := PackState(s, SortedDigests(HashesOf(f, s)));
        assert s in Listing(f) && p in packs && h in Elements(p.hashes);
      }
    }
  }

  /** The files whose sizes are asked for are there, unless planning fails. */
  lemma GarbageSized(f: Files, live: set<Digest>)
    ensures PlanFails(f, live) <==> Missing(f, LoosePaths(LooseGarbage(f, live)))
  {
    hide ListedHashes, SortedDigests;
    LooseHashesExact(f);
    var hs := LooseGarbage(f, live);
    if h :| h in ListedHashes(f) - live && h !in LooseHashes(f) {
      assert h in hs;
      var i :| 0 <= i < |hs| && hs[i] == h;
      assert LoosePaths(hs)[i] == Loose(h);
    }
    if i :| 0 <= i < |LoosePaths(hs)| && LoosePaths(hs)[i] !in f {
      assert hs[i] in hs;
    }
  }

  lemma RemovalsSized(f: Files, live: set<Digest>, remove: seq<Name>)
    requires remove == DecisionOf(f, live).remove
    ensures !Missing(f, PairPaths(remove))
  {
    hide DecisionOf, HashesOf;
    PlanFacts(f, live);
    forall i | 0 <= i < |PairPaths(remove)| ensures PairPaths(remove)[i] in f {
      PairPathsExact(remove, PairPaths(remove)[i]);
      assert Partial(f, live, PairPaths(remove)[i].stem);
    }
  }

  /** The part of the plan about listed files. */
  method PlanLoose(disk: Disk, live: set<Digest>) returns (listed: set<Digest>, garbage: seq<Digest>, bytes: Option<nat>)
    ensures listed == ListedHashes(disk.files) && garbage == LooseGarbage(disk.files, live)
    ensures bytes.None? <==> PlanFails(disk.files, live)
    ensures bytes.Some? ==> bytes.value == SumSizes(disk.files, LoosePaths(garbage))
  {
    hide ListedHashes, LoosePaths, PlanFails, IsListing, SortedDigests, SumSizes, Missing;
    var found := disk.ListBlobs();
    ListingSet(disk.files, found);
    var loose := Dedup(found);
    listed := Elements(loose);
    garbage := Filter(loose, listed - live);
    GarbageSized(disk.files, live);
    bytes := FileSizes(disk, LoosePaths(garbage));
  }

  /** The part about packs. */
  method PlanPacks(disk: Disk, live: set<Digest>, packs: seq<PackState>, listed: set<Digest>)
    returns (remove: seq<Name>, rewrite: seq<Rewrite>, bytes: nat)
    requires packs == PackStates(disk.files, Listing(disk.files)) && listed == ListedHashes(disk.files)
    ensures Decision(remove, rewrite) == DecisionOf(disk.files, live)
    ensures bytes == SumSizes(disk.files, PairPaths(remove))
  {
    hide ListedHashes, PairPaths, PackStates, Listing, Decide, HealthyHashes, Missing, SumSizes;
    remove, rewrite := DecidePacks(packs, live, listed * live);
    RemovalsSized(disk.files, live, remove);
    var sizes := FileSizes(disk, PairPaths(remove));
    bytes := sizes.value;
  }

  /** `plan_sweep`: the plan of the tree and the live set, or an error. */
  method PlanSweep(store: BlobStore, live: set<Digest>) returns (r: Option<SweepPlan>, census: Census)
    ensures r.None? <==> PlanFails(store.disk.files, live)
    ensures r.Some? ==> r.value == PlanOf(store.disk.files, live) && census == CensusOf(store.disk.files, live)
  {
    hide ParseIndex, PackStates, SumSizes, ListedHashes, PackedHashes, LoosePaths, PairPaths, Listing, OrphanList, Unreadable, PlanFails, DecisionOf, LooseGarbage;
    var disk := store.disk;
    var packs, unreadable, packOrphans := TakeInventory(disk);
    var orphanFiles := AllOrphans(disk, packOrphans);
    var packed := PackedUnion(packs);
    PackedUnionExact(disk.files, packs, packed);
    var listed, looseGarbage, looseBytes := PlanLoose(disk, live);
    var scanned := listed + packed;
    census := Census(|scanned|, |scanned * live|, |scanned - live|);
    if looseBytes.None? {
      return None, census;
    }
    var remove, rewrite, removeBytes := PlanPacks(disk, live, packs, listed);
    var plan := SweepPlan(
      looseGarbage,
      looseBytes.value,
      remove,
      rewrite,
      orphanFiles,
      unreadable,
      looseBytes.value + removeBytes);
    return Some(plan), census;
  }

  /** `loose_set`: the listed digests in order, each once. */
  lemma ListingSet(f: Files, listed: seq<Digest>)
    requires IsListing(f, listed)
    ensures Dedup(listed) == SortedDigests(ListedHashes(f))
    ensures Elements(Dedup(listed)) == ListedHashes(f)
  {
    hide ListedHashes;
    ListingElements(f, listed);
    assert forall h :: h in listed <==> h in Elements(listed);
    DedupSorted(listed, ListedHashes(f));
  }

  /* Sweep */

  datatype SweepReport = SweepReport(
    plan: SweepPlan,
    census: Census,
    executed: bool,
    looseRemoved: nat,
    packsRemoved: nat,
    packsRewritten: nat,
    bytesReclaimed: nat)

  /** Delete a file, or move it into the trash mirror. */
  method RemoveOrTrash(disk: Disk, mode: SweepMode, p: Path) returns (len: nat)
    requires !mode.DryRun? && !p.Trash? && p in disk.files
    modifies disk
    ensures len == Size(old(disk.files), p)
    ensures disk.files == ApplyAll(old(disk.files), EvictSteps(old(disk.files), mode, p))
    ensures disk.log == old(disk.log) + EvictSteps(old(disk.files), mode, p)
  {
    len := |disk.files[p]|;
    EvictShape(disk.files, mode, p);
    if mode.DeleteMode? {
      ApplyOne(disk.files, Remove(p));
      disk.RemoveFile(p);
    } else if Trash(p) in disk.files {
      ApplyTwo(disk.files, Remove(Trash(p)), Rename(p, Trash(p)));
      disk.RemoveFile(Trash(p));
      disk.RenameFile(p, Trash(p));
    } else {
      ApplyOne(disk.files, Rename(p, Trash(p)));
      disk.RenameFile(p, Trash(p));
    }
  }

  /** Evicting one list and then another is evicting their concatenation. */
  lemma {:induction false} EvictPhaseConcat(f: Files, mode: SweepMode, a: seq<Path>, b: seq<Path>)
    ensures EvictPhase(f, mode, a + b) == EvictPhase(f, mode, a) + EvictPhase(ApplyAll(f, EvictPhase(f, mode, a)), mode, b)
    decreases |a|
  {
    if a == [] {
      assert a + b == b;
    } else {
      var w := EvictSteps(f, mode, a[0]);
      var f1 := ApplyAll(f, w);
      assert (a + b)[1..] == a[1..] + b;
      EvictPhaseConcat(f1, mode, a[1..], b);
      ApplyAllConcat(f, w, EvictPhase(f1, mode, a[1..]));
    }
  }

  lemma EvictPhaseOne(f: Files, mode: SweepMode, p: Path)
    ensures EvictPhase(f, mode, [p]) == EvictSteps(f, mode, p)
  {
    assert [p][1..] == [];
    assert EvictSteps(f, mode, p) + [] == EvictSteps(f, mode, p);
  }

  /** Files not yet evicted are as they were at the start. */
  lemma NotYetEvicted(f: Files, mode: SweepMode, ps: seq<Path>, p: Path)
    requires NoTrash(ps) && !p.Trash? && p !in ps
    ensures SameAt(f, ApplyAll(f, EvictPhase(f, mode, ps)), p)
  {
    EvictAll(f, mode, ps);
  }

  /** One more eviction after those of `ps`. */
  lemma EvictNext(f: Files, mode: SweepMode, ps: seq<Path>, p: Path)
    requires NoTrash(ps) && !p.Trash? && p !in ps
    ensures var f1 := ApplyAll(f, EvictPhase(f, mode, ps));
            && EvictPhase(f, mode, ps + [p]) == EvictPhase(f, mode, ps) + EvictSteps(f1, mode, p)
            && ApplyAll(f, EvictPhase(f, mode, ps + [p])) == ApplyAll(f1, EvictSteps(f1, mode, p))
            && SumSizes(f, ps + [p]) == SumSizes(f, ps) + Size(f1, p)
            && SameAt(f, f1, p)
  {
    var f1 := ApplyAll(f, EvictPhase(f, mode, ps));
    EvictPhaseConcat(f, mode, ps, [p]);
    EvictPhaseOne(f1, mode, p);
    ApplyAllConcat(f, EvictPhase(f, mode, ps), EvictSteps(f1, mode, p));
    NotYetEvicted(f, mode, ps, p);
    assert (ps + [p])[..|ps|] == ps;
  }

  /** Phases 2 and 3: deleting or trashing files that are all there. */
  method EvictFiles(disk: Disk, mode: SweepMode, ps: seq<Path>) returns (bytes: nat)
    requires !mode.DryRun? && NoTrash(ps) && Distinct(ps)
    requires forall p | p in ps :: p in disk.files
    modifies disk
    ensures bytes == SumSizes(old(disk.files), ps)
    ensures disk.files == ApplyAll(old(disk.files), EvictPhase(old(disk.files), mode, ps))
    ensures disk.log == old(disk.log) + EvictPhase(old(disk.files), mode, ps)
  {
    hide EvictPhase, EvictSteps, SumSizes;
    bytes := 0;
    ghost var start, logged := disk.files, disk.log;
    NothingEvicted(start, mode);
    for i := 0 to |ps|
      invariant bytes == SumSizes(start, ps[..i])
      invariant disk.files == ApplyAll(start, EvictPhase(start, mode, ps[..i]))
      invariant disk.log == logged + EvictPhase(start, mode, ps[..i])
    {
      assert ps[..i + 1] == ps[..i] + [ps[i]] && ps[i] in ps && ps[i] !in ps[..i];
      EvictNext(start, mode, ps[..i], ps[i]);
      var len := RemoveOrTrash(disk, mode, ps[i]);
      bytes := bytes + len;
    }
    assert ps[..|ps|] == ps;
  }

  lemma NothingEvicted(f: Files, mode: SweepMode)
    ensures EvictPhase(f, mode, []) == [] && SumSizes(f, []) == 0 && PairPaths([]) == []
  {
  }

  method RemoveIfThere(disk: Disk, mode: SweepMode, p: Path) returns (len: nat)
    requires !mode.DryRun? && !p.Trash?
    modifies disk
    ensures len == Size(old(disk.files), p)
    ensures disk.files == ApplyAll(old(disk.files), EvictSteps(old(disk.files), mode, p))
    ensures disk.log == old(disk.log) + EvictSteps(old(disk.files), mode, p)
  {
    if p in disk.files {
      len := RemoveOrTrash(disk, mode, p);
    } else {
      len := 0;
    }
  }

  /** Phase 4: each index, then its pack, if it is there. */
  method RemovePacks(disk: Disk, mode: SweepMode, stems: seq<Name>) returns (bytes: nat)
    requires !mode.DryRun? && Distinct(stems)
    modifies disk
    ensures bytes == SumSizes(old(disk.files), PairPaths(stems))
    ensures disk.files == ApplyAll(old(disk.files), EvictPhase(old(disk.files), mode, PairPaths(stems)))
    ensures disk.log == old(disk.log) + EvictPhase(old(disk.files), mode, PairPaths(stems))
  {
    hide EvictPhase, EvictSteps, SumSizes, PairPaths;
    bytes := 0;
    ghost var start, logged := disk.files, disk.log;
    NothingEvicted(start, mode);
    for i := 0 to |stems|
      invariant bytes == SumSizes(start, PairPaths(stems[..i]))
      invariant disk.files == ApplyAll(start, EvictPhase(start, mode, PairPaths(stems[..i])))
      invariant disk.log == logged + EvictPhase(start, mode, PairPaths(stems[..i]))
    {
      var s := stems[i];
      ghost var ps := PairPaths(stems[..i]);
      PairPathsNext(stems, i);
      EvictNext(start, mode, ps, Idx(s));
      EvictNext(start, mode, ps + [Idx(s)], Pack(s));
      var idxLen := RemoveIfThere(disk, mode, Idx(s));
      var packLen := RemoveIfThere(disk, mode, Pack(s));
      bytes := bytes + idxLen + packLen;
    }
    assert stems[..|stems|] == stems;
  }

  lemma PairPathsNext(stems: seq<Name>, i: nat)
    requires i < |stems| && Distinct(stems)
    ensures var ps, s := PairPaths(stems[..i]), stems[i];
            && PairPaths(stems[..i + 1]) == (ps + [Idx(s)]) + [Pack(s)]
            && NoTrash(ps) && Idx(s) !in ps && Pack(s) !in ps + [Idx(s)]
  {
    var ps, s := PairPaths(stems[..i]), stems[i];
    assert stems[..i + 1][..i] == stems[..i] && s !in stems[..i];
    PairPathsExact(stems[..i], Idx(s));
    PairPathsExact(stems[..i], Pack(s));
    forall p | p in ps ensures !p.Trash? {
      PairPathsExact(stems[..i], p);
    }
    assert (ps + [Idx(s)]) + [Pack(s)] == ps + [Idx(s), Pack(s)];
  }

  /** Reading what a replacement keeps. */
  method ReadKept(store: BlobStore, r: Rewrite) returns (objects: Option<seq<Blob>>)
    ensures objects == ReadKeep(store.codec, store.disk.files, r)
  {
    hide ParseIndex, ReadBlob;
    var files := store.disk.files;
    if Idx(r.pack) !in files || Pack(r.pack) !in files {
      return None;
    }
    var index := LoadIndex(files[Idx(r.pack)]);
    if index.Err? {
      return None;
    }
    var kept: seq<Blob> := [];
    for i := 0 to |r.keep|
      invariant ReadEach(store.codec, files[Pack(r.pack)], index.value, r.keep[..i]) == Some(kept)
    {
      assert r.keep[..i + 1][..i] == r.keep[..i];
      var data := ReadFromPack(store.codec, files[Pack(r.pack)], index.value, r.keep[i]);
      if data.Err? {
        ReadEachFails(store.codec, files[Pack(r.pack)], index.value, r.keep, i + 1);
        return None;
      }
      kept := kept + [Blob(r.keep[i], data.value)];
    }
    assert r.keep[..|r.keep|] == r.keep;
    return Some(kept);
  }

  lemma {:induction false} ReadEachFails(c: Codec, pack: Bytes, index: PackIndex, keep: seq<Digest>, i: nat)
    requires i <= |keep| && ReadEach(c, pack, index, keep[..i]).None?
    ensures ReadEach(c, pack, index, keep).None?
    decreases |keep|
  {
    hide ReadBlob;
    if i == |keep| {
      assert keep[..i] == keep;
    } else {
      assert keep[..|keep| - 1][..i] == keep[..i];
      ReadEachFails(c, pack, index, keep[..|keep| - 1], i);
    }
  }

  /** Phase 1. */
  method WriteReplacements(store: BlobStore, rs: seq<Rewrite>) returns (ok: bool, bytes: nat)
    modifies store.disk
    ensures var outcome := RewritePhase(store.codec, old(store.disk.files), rs);
            && ok == outcome.ok
            && (ok ==> bytes == outcome.gain)
            && store.disk.files == ApplyAll(old(store.disk.files), outcome.steps)
            && store.disk.log == old(store.disk.log) + outcome.steps
  {
    hide ParseIndex, ReadBlob, CreateSteps, ReadKeep;
    var disk := store.disk;
    ghost var c, start, logged, done := store.codec, disk.files, disk.log, [];
    bytes := 0;
    for i := 0 to |rs|
      invariant disk.files == ApplyAll(start, done) && disk.log == logged + done
      invariant var rest := RewritePhase(c, disk.files, rs[i..]);
                RewritePhase(c, start, rs) == Outcome(done + rest.steps, rest.ok, RewritePhase(c, start, rs).gain) &&
                (rest.ok ==> RewritePhase(c, start, rs).gain == bytes + rest.gain)
    {
      var r := rs[i];
      ghost var before := disk.files;
      assert rs[i..][0] == r && rs[i..][1..] == rs[i + 1..];
      var objects := ReadKept(store, r);
      if objects.None? || objects.value == [] {
        assert done + [] == done;
        return false, 0;
      }
      var created := Create(store.codec, disk, objects.value);
      var name := created.value;
      var old', new' := PairSize(disk.files, r.pack), PairSize(disk.files, name);
      bytes := bytes + SaturatingSub(old', new');
      ghost var w := CreateSteps(c, objects.value);
      ApplyAllConcat(start, done, w);
      ConcatAssociative(logged, done, w);
      ConcatAssociative(done, w, RewritePhase(c, disk.files, rs[i + 1..]).steps);
      done := done + w;
    }
    assert rs[|rs|..] == [];
    assert done + [] == done;
    ok := true;
  }

  /** `sweep`: plan, write the replacements, then delete loose garbage, orphans
      and packs. A sweep that fails in phase 1 leaves the pack cache alone. */
  method SweepStore(store: BlobStore, live: set<Digest>, options: Options) returns (r: Option<SweepReport>)
    modifies store, store.disk
    ensures Next(store.Cfg(), old(store.Now()), Sweep(live, options), Swept(r.Some?), store.Now())
    ensures store.disk.log == old(store.disk.log) + SweepSteps(store.codec, old(store.disk.files), live, options)
    ensures r.Some? ==>
              && r.value.plan == PlanOf(old(store.disk.files), live)
              && r.value.census == CensusOf(old(store.disk.files), live)
              && r.value.bytesReclaimed == SweepOutcome(store.codec, old(store.disk.files), live, options).gain
              && r.value.executed == !options.mode.DryRun?
              && (r.value.executed ==>
                    && r.value.looseRemoved == |r.value.plan.looseGarbage|
                    && r.value.packsRemoved == |Removals(r.value.plan, options.rewritePartialPacks)|
                    && r.value.packsRewritten == if options.rewritePartialPacks then |r.value.plan.packsToRewrite| else 0)
  {
    hide ParseIndex, PlanOf, CensusOf, RewritePhase, EvictPhase, SumSizes;
    var disk := store.disk;
    ghost var f0, log0, c := disk.files, disk.log, store.codec;
    var planned, census := PlanSweep(store, live);
    if planned.None? {
      return None;
    }
    var plan := planned.value;
    if options.mode.DryRun? {
      return Some(SweepReport(plan, census, false, 0, 0, 0, 0));
    }
    var bytes := 0;
    if options.rewritePartialPacks {
      var ok, gained := WriteReplacements(store, plan.packsToRewrite);
      if !ok {
        return None;
      }
      bytes := gained;
    }
    ghost var f1, log1 := disk.files, disk.log;
    assert FirstPhase(c, f0, live, options).ok && FirstPhase(c, f0, live, options).gain == bytes;
    assert f1 == ApplyAll(f0, FirstPhase(c, f0, live, options).steps);
    var removals := Removals(plan, options.rewritePartialPacks);
    VictimsDistinct(f0, live, options.rewritePartialPacks);
    VictimsNoTrash(f0, live, options.rewritePartialPacks);
    RemovalsDistinct(f0, live, options.rewritePartialPacks);
    PlannedThere(c, f0, live, options);
    var swept := EvictPlanned(disk, options.mode, plan.looseGarbage, plan.orphanFiles, removals);
    store.packCache := None;
    ApplyAllConcat(f0, FirstPhase(c, f0, live, options).steps, EvictPhase(f1, options.mode, Victims(plan, options.rewritePartialPacks)));
    return Some(SweepReport(
      plan,
      census,
      true,
      |plan.looseGarbage|,
      |removals|,
      if options.rewritePartialPacks then |plan.packsToRewrite| else 0,
      bytes + swept));
  }

  /** Phases 2, 3 and 4 one after the other. */
  method EvictPlanned(disk: Disk, mode: SweepMode, looseGarbage: seq<Digest>, orphans: seq<Path>, removals: seq<Name>) returns (bytes: nat)
    requires !mode.DryRun? && Distinct(removals)
    requires var ps := LoosePaths(looseGarbage) + orphans + PairPaths(removals); NoTrash(ps) && Distinct(ps)
    requires forall p | p in LoosePaths(looseGarbage) + orphans :: p in disk.files
    modifies disk
    ensures var ps := LoosePaths(looseGarbage) + orphans + PairPaths(removals);
            && bytes == SumSizes(old(disk.files), ps)
            && disk.files == ApplyAll(old(disk.files), EvictPhase(old(disk.files), mode, ps))
            && disk.log == old(disk.log) + EvictPhase(old(disk.files), mode, ps)
  {
    hide EvictPhase, EvictSteps, SumSizes, PairPaths, LoosePaths;
    var loose := LoosePaths(looseGarbage);
    ghost var pairs, f0 := PairPaths(removals), disk.files;
    DistinctParts(loose, orphans, pairs);
    var looseBytes := EvictFiles(disk, mode, loose);
    ghost var f1 := disk.files;
    EvictThen(f0, mode, loose, orphans);
    forall p | p in orphans ensures p in f1 {
      assert p in loose + orphans;
      NotYetEvicted(f0, mode, loose, p);
    }
    var orphanBytes := EvictFiles(disk, mode, orphans);
    EvictThen(f0, mode, loose + orphans, pairs);
    var pairBytes := RemovePacks(disk, mode, removals);
    bytes := looseBytes + orphanBytes + pairBytes;
  }

  lemma DistinctParts(a: seq<Path>, b: seq<Path>, d: seq<Path>)
    requires NoTrash(a + b + d) && Distinct(a + b + d)
    ensures NoTrash(a) && NoTrash(b) && NoTrash(d) && NoTrash(a + b)
    ensures Distinct(a) && Distinct(b) && Distinct(a + b)
    ensures forall p | p in b :: p !in a
    ensures forall p | p in d :: p !in a + b
  {
    var all := a + b + d;
    assert forall i | 0 <= i < |a| :: all[i] == a[i];
    assert forall i | 0 <= i < |b| :: all[|a| + i] == b[i];
    assert forall i | 0 <= i < |a + b| :: all[i] == (a + b)[i];
    assert forall i | 0 <= i < |d| :: all[|a + b| + i] == d[i];
    forall p | p in a + b + d ensures !p.Trash? {
    }
    assert forall p | p in a || p in b || p in d :: p in all;
  }

  /** The effects and sizes of a second list, after those of the first. */
  lemma EvictThen(f: Files, mode: SweepMode, a: seq<Path>, b: seq<Path>)
    requires NoTrash(a) && NoTrash(b)
    requires forall p | p in b :: p !in a
    ensures var f1 := ApplyAll(f, EvictPhase(f, mode, a));
            && EvictPhase(f, mode, a + b) == EvictPhase(f, mode, a) + EvictPhase(f1, mode, b)
            && ApplyAll(f, EvictPhase(f, mode, a + b)) == ApplyAll(f1, EvictPhase(f1, mode, b))
            && SumSizes(f, a + b) == SumSizes(f, a) + SumSizes(f1, b)
  {
    hide EvictPhase, SumSizes;
    var f1 := ApplyAll(f, EvictPhase(f, mode, a));
    EvictPhaseConcat(f, mode, a, b);
    ApplyAllConcat(f, EvictPhase(f, mode, a), EvictPhase(f1, mode, b));
    SumSizesConcat(f, a, b);
    forall p | p in b ensures SameAt(f, f1, p) {
      NotYetEvicted(f, mode, a, p);
    }
    SumSizesSame(f, f1, b);
  }

  /** Phase 1 deletes nothing, so what the plan lists is still there. */
  lemma {:induction false} RewritesDeleteNothing(c: Codec, f: Files, rs: seq<Rewrite>)
    ensures f.Keys <= ApplyAll(f, RewritePhase(c, f, rs).steps).Keys
    decreases |rs|
  {
    hide ReadKeep, PackName, PackBytes, CreatedIndex;
    if rs != [] && ReadKeep(c, f, rs[0]).Some? && ReadKeep(c, f, rs[0]).value != [] {
      var objects := ReadKeep(c, f, rs[0]).value;
      var w := CreateSteps(c, objects);
      var f1 := ApplyAll(f, w);
      ApplyTwo(f, w[0], w[1]);
      RewritesDeleteNothing(c, f1, rs[1..]);
      ApplyAllConcat(f, w, RewritePhase(c, f1, rs[1..]).steps);
    }
  }

  lemma PlannedThere(c: Codec, f: Files, live: set<Digest>, o: Options)
    requires !PlanFails(f, live)
    ensures var plan := PlanOf(f, live);
            forall p | p in LoosePaths(plan.looseGarbage) + plan.orphanFiles :: p in ApplyAll(f, FirstPhase(c, f, live, o).steps)
  {
    hide RewritePhase;
    var plan := PlanOf(f, live);
    RewritesDeleteNothing(c, f, plan.packsToRewrite);
    LooseHashesExact(f);
    forall p | p in LoosePaths(plan.looseGarbage) + plan.orphanFiles ensures p in f {
      if p in LoosePaths(plan.looseGarbage) {
        var i :| 0 <= i < |plan.looseGarbage| && LoosePaths(plan.looseGarbage)[i] == p;
        assert plan.looseGarbage[i] in plan.looseGarbage;
      }
    }
  }
}

/** What a sweep decides and does (src/gc.rs), as functions of the file tree. */
module GcModel {
  import opened Bytes
  import opened Codecs
  import opened Disks
  import opened Inventory
  import opened PackFormat
  import opened Sorting

  datatype SweepMode = DryRun | TrashMode | DeleteMode

  datatype Options = Options(mode: SweepMode, rewritePartialPacks: bool)

  /** A pack to be rewritten with the objects of `keep` only. */
  datatype Rewrite = Rewrite(pack: Name, keep: seq<Digest>)

  /** How many objects there are, and how many of them are live and garbage. */
  datatype Census = Census(scanned: nat, live: nat, garbage: nat)

  /** What a sweep is to do; its census is kept apart. */
  datatype SweepPlan = SweepPlan(
    looseGarbage: seq<Digest>,
    looseGarbageBytes: nat,
    packsToRemove: seq<Name>,
    packsToRewrite: seq<Rewrite>,
    orphanFiles: seq<Path>,
    unreadablePacks: seq<Name>,
    bytesReclaimable: nat)

  /* Planning */

  /** An indexed pack and the digests it holds, in order. */
  datatype PackState = PackState(stem: Name, hashes: seq<Digest>)

  predicate HasGarbage(p: PackState, live: set<Digest>) {
    !(Elements(p.hashes) <= live)
  }

  /** An indexed pack with garbage. */
  ghost predicate Partial(f: Files, live: set<Digest>, s: Name) {
    Indexed(f, s) && !(HashesOf(f, s) <= live)
  }

  /** An indexed pack without garbage. */
  ghost predicate Healthy(f: Files, live: set<Digest>, s: Name) {
    Indexed(f, s) && HashesOf(f, s) <= live
  }

  /** The inventory of the indexed packs among `stems`. */
  ghost function PackStates(f: Files, stems: seq<Name>): seq<PackState> {
    if stems == [] then [] else
      var s := stems[|stems| - 1];
      PackStates(f, stems[..|stems| - 1]) +
      if Indexed(f, s) then [PackState(s, SortedDigests(HashesOf(f, s)))] else []
  }

  ghost function HealthyHashes(packs: seq<PackState>, live: set<Digest>): set<Digest> {
    set p, h | p in packs && !HasGarbage(p, live) && h in p.hashes :: h
  }

  datatype Decision = Decision(remove: seq<Name>, rewrite: seq<Rewrite>)

  /** The coverage rule, pack by pack: `covered` is what survives whatever
      happens to the packs still to be decided, and grows by what each
      replacement pack will hold. */
  ghost function Decide(packs: seq<PackState>, live: set<Digest>, covered: set<Digest>): Decision
    decreases |packs|
  {
    if packs == [] then Decision([], []) else
      var p := packs[0];
      if !HasGarbage(p, live) then Decide(packs[1..], live, covered)
      else
        var keep := Filter(p.hashes, live - covered);
        if keep == [] then
          var d := Decide(packs[1..], live, covered);
          Decision([p.stem] + d.remove, d.rewrite)
        else
          var d := Decide(packs[1..], live, covered + Elements(keep));
          Decision(d.remove, [Rewrite(p.stem, keep)] + d.rewrite)
  }

  ghost function DecisionOf(f: Files, live: set<Digest>): Decision {
    var packs := PackStates(f, Listing(f));
    Decide(packs, live, ListedHashes(f) * live + HealthyHashes(packs, live))
  }

  ghost function LooseGarbage(f: Files, live: set<Digest>): seq<Digest> {
    Filter(SortedDigests(ListedHashes(f)), ListedHashes(f) - live)
  }

  /** Planning fails when a digest that is not live is listed under another name
      only: the size of its loose file is asked for, and there is none. */
  ghost predicate PlanFails(f: Files, live: set<Digest>) {
    !(ListedHashes(f) - live <= LooseHashes(f))
  }

  /** A live digest that counts as covered because listing reports it, although
      no read finds a loose file, and of which only packs with garbage hold a
      copy. */
  ghost predicate Shadowed(f: Files, live: set<Digest>, h: Digest) {
    && h in live && h in ListedHashes(f) && Loose(h) !in f
    && (exists s :: Partial(f, live, s) && h in HashesOf(f, s))
    && !(exists s :: Healthy(f, live, s) && h in HashesOf(f, s))
  }

  /** Paired packs whose index does not load, in listing order. */
  ghost function Unreadable(f: Files, stems: seq<Name>): seq<Name> {
    if stems == [] then [] else
      Unreadable(f, stems[..|stems| - 1]) +
      var s := stems[|stems| - 1];
      if Paired(f, s) && !Indexed(f, s) then [s] else []
  }

  function Size(f: Files, p: Path): nat {
    if p in f then |f[p]| else 0
  }

  function PairSize(f: Files, s: Name): nat {
    Size(f, Pack(s)) + Size(f, Idx(s))
  }

  function SumSizes(f: Files, ps: seq<Path>): nat {
    if ps == [] then 0 else SumSizes(f, ps[..|ps| - 1]) + Size(f, ps[|ps| - 1])
  }

  function LoosePaths(hs: seq<Digest>): (ps: seq<Path>)
    ensures |ps| == |hs|
    ensures forall i | 0 <= i < |hs| :: ps[i] == Loose(hs[i])
  {
    if hs == [] then [] else LoosePaths(hs[..|hs| - 1]) + [Loose(hs[|hs| - 1])]
  }

  /** The files of some packs, each index before its pack. */
  function PairPaths(stems: seq<Name>): seq<Path> {
    if stems == [] then [] else
      PairPaths(stems[..|stems| - 1]) + [Idx(stems[|stems| - 1]), Pack(stems[|stems| - 1])]
  }

  /** The digests a plan scans: listed or packed, readable or not. */
  ghost function Scanned(f: Files): set<Digest> {
    ListedHashes(f) + PackedHashes(f)
  }

  ghost function CensusOf(f: Files, live: set<Digest>): Census {
    Census(|Scanned(f)|, |Scanned(f) * live|, |Scanned(f) - live|)
  }

  ghost function PlanOf(f: Files, live: set<Digest>): SweepPlan {
    var d := DecisionOf(f, live);
    var looseGarbage := LooseGarbage(f, live);
    SweepPlan(
      looseGarbage,
      SumSizes(f, LoosePaths(looseGarbage)),
      d.remove,
      d.rewrite,
      OrphanList(f),
      Unreadable(f, Listing(f)),
      SumSizes(f, LoosePaths(looseGarbage)) + SumSizes(f, PairPaths(d.remove)))
  }

  /* Executing */

  /** Reading the objects a replacement pack keeps. */
  ghost function ReadEach(c: Codec, pack: Bytes, index: PackIndex, keep: seq<Digest>): Option<seq<Blob>> {
    if keep == [] then Some([]) else
      match ReadEach(c, pack, index, keep[..|keep| - 1])
      case None => None
      case Some(objects) =>
        var h := keep[|keep| - 1];
        match ReadBlob(c, pack, index, h)
        case Err(_) => None
        case Ok(data) => Some(objects + [Blob(h, data)])
  }

  ghost function ReadKeep(c: Codec, f: Files, r: Rewrite): Option<seq<Blob>> {
    if Indexed(f, r.pack) then
      ReadEach(c, f[Pack(r.pack)], ParseIndex(f[Idx(r.pack)]).value, r.keep)
    else
      None
  }

  /** The effects of (part of) a sweep, whether it ran to its end, and the
      bytes its counter then shows. */
  datatype Outcome = Outcome(steps: seq<Step>, ok: bool, gain: nat)

  function SaturatingSub(a: nat, b: nat): nat {
    if a < b then 0 else a - b
  }

  /** Phase 1: one replacement pack after the other; the first object that does
      not read ends the sweep. */
  ghost function RewritePhase(c: Codec, f: Files, rs: seq<Rewrite>): Outcome
    decreases |rs|
  {
    if rs == [] then Outcome([], true, 0) else
      match ReadKeep(c, f, rs[0])
      case None => Outcome([], false, 0)
      case Some(objects) =>
        if objects == [] then Outcome([], false, 0) else
          var steps := CreateSteps(c, objects);
          var f1 := ApplyAll(f, steps);
          var rest := RewritePhase(c, f1, rs[1..]);
          Outcome(
            steps + rest.steps,
            rest.ok,
            SaturatingSub(PairSize(f1, rs[0].pack), PairSize(f1, PackName(c, objects))) + rest.gain)
  }

  /** `remove_or_trash`; in trash mode an older entry of the same path is
      removed before the rename. */
  ghost function EvictSteps(f: Files, mode: SweepMode, p: Path): seq<Step> {
    if p !in f then []
    else if mode.DeleteMode? then [Remove(p)]
    else (if Trash(p) in f then [Remove(Trash(p))] else []) + [Rename(p, Trash(p))]
  }

  ghost function EvictPhase(f: Files, mode: SweepMode, ps: seq<Path>): seq<Step>
    decreases |ps|
  {
    if ps == [] then [] else
      var steps := EvictSteps(f, mode, ps[0]);
      steps + EvictPhase(ApplyAll(f, steps), mode, ps[1..])
  }

  function RewrittenPacks(rs: seq<Rewrite>): (stems: seq<Name>)
    ensures |stems| == |rs|
    ensures forall i | 0 <= i < |rs| :: stems[i] == rs[i].pack
  {
    if rs == [] then [] else RewrittenPacks(rs[..|rs| - 1]) + [rs[|rs| - 1].pack]
  }

  /** The packs phase 4 deletes. */
  function Removals(plan: SweepPlan, rewrite: bool): seq<Name> {
    plan.packsToRemove + (if rewrite then RewrittenPacks(plan.packsToRewrite) else [])
  }

  /** The files phases 2 to 4 delete, in order. */
  function Victims(plan: SweepPlan, rewrite: bool): seq<Path> {
    LoosePaths(plan.looseGarbage) + plan.orphanFiles + PairPaths(Removals(plan, rewrite))
  }

  ghost function FirstPhase(c: Codec, f: Files, live: set<Digest>, o: Options): Outcome {
    if o.mode.DryRun? || !o.rewritePartialPacks then Outcome([], true, 0)
    else RewritePhase(c, f, PlanOf(f, live).packsToRewrite)
  }

  ghost function SweepOutcome(c: Codec, f: Files, live: set<Digest>, o: Options): Outcome {
    var first := FirstPhase(c, f, live, o);
    if PlanFails(f, live) then Outcome([], false, 0)
    else if o.mode.DryRun? || !first.ok then first else
      var f1 := ApplyAll(f, first.steps);
      var victims := Victims(PlanOf(f, live), o.rewritePartialPacks);
      Outcome(
        first.steps + EvictPhase(f1, o.mode, victims),
        true,
        first.gain + SumSizes(f1, victims))
  }

  ghost function SweepSteps(c: Codec, f: Files, live: set<Digest>, o: Options): seq<Step> {
    SweepOutcome(c, f, live, o).steps
  }
}

/** The coverage rule. */
module GcPlanning {
  import opened Bytes
  import opened Disks
  import opened GcModel
  import opened Inventory
  import opened Sorting

  ghost function Kept(rs: seq<Rewrite>): set<Digest> {
    set r, h | r in rs && h in r.keep :: h
  }

  ghost predicate Distinct<T>(xs: seq<T>) {
    forall i, j | 0 <= i < j < |xs| :: xs[i] != xs[j]
  }

  ghost predicate PairwiseDisjoint(rs: seq<Rewrite>) {
    forall i, j | 0 <= i < j < |rs| :: Elements(rs[i].keep) !! Elements(rs[j].keep)
  }

  lemma KeptCons(r: Rewrite, rs: seq<Rewrite>)
    ensures Kept([r] + rs) == Elements(r.keep) + Kept(rs)
  {
    forall h | h in Elements(r.keep) + Kept(rs) ensures h in Kept([r] + rs) {
      if h in r.keep {
        assert r in [r] + rs;
      } else {
        var q :| q in rs && h in q.keep;
        assert q in [r] + rs;
      }
    }
  }

  /** A replacement holds live objects of its pack that were not covered,
      sorted, and at least one. */
  ghost predicate SoundRewrite(packs: seq<PackState>, live: set<Digest>, covered: set<Digest>, r: Rewrite) {
    && r.keep != []
    && StrictlySorted(r.keep, DigestKey)
    && exists p :: p in packs && p.stem == r.pack && HasGarbage(p, live) && Elements(r.keep) <= Elements(p.hashes) * live - covered
  }

  ghost predicate AllSorted(packs: seq<PackState>) {
    forall p | p in packs :: StrictlySorted(p.hashes, DigestKey)
  }

  /** The covered set when the packs after the first are decided. */
  ghost function CoveredNext(p: PackState, live: set<Digest>, covered: set<Digest>): set<Digest> {
    if HasGarbage(p, live) then covered + Elements(Filter(p.hashes, live - covered)) else covered
  }

  /** The three ways a pack is decided. */
  lemma DecideStep(packs: seq<PackState>, live: set<Digest>, covered: set<Digest>)
    requires packs != []
    ensures var d := Decide(packs, live, covered);
            var p := packs[0];
            var keep := Filter(p.hashes, live - covered);
            var rest := Decide(packs[1..], live, CoveredNext(p, live, covered));
            && (!HasGarbage(p, live) ==> d == rest)
            && (HasGarbage(p, live) && keep == [] ==> d == Decision([p.stem] + rest.remove, rest.rewrite))
            && (HasGarbage(p, live) && keep != [] ==> d == Decision(rest.remove, [Rewrite(p.stem, keep)] + rest.rewrite))
  {
    if Filter(packs[0].hashes, live - covered) == [] {
      assert covered + Elements(Filter(packs[0].hashes, live - covered)) == covered;
    }
  }

  lemma {:induction false} DecideSound(packs: seq<PackState>, live: set<Digest>, covered: set<Digest>)
    requires AllSorted(packs)
    ensures forall s | s in Decide(packs, live, covered).remove :: exists p :: p in packs && p.stem == s && HasGarbage(p, live)
    ensures forall r | r in Decide(packs, live, covered).rewrite :: SoundRewrite(packs, live, covered, r)
    decreases |packs|
  {
    if packs != [] {
      var p, more := packs[0], CoveredNext(packs[0], live, covered);
      DecideStep(packs, live, covered);
      DecideSound(packs[1..], live, more);
      var d, rest := Decide(packs, live, covered), Decide(packs[1..], live, more);
      forall s | s in d.remove ensures exists p :: p in packs && p.stem == s && HasGarbage(p, live) {
        if s in rest.remove {
          var q :| q in packs[1..] && q.stem == s && HasGarbage(q, live);
          assert q in packs;
        } else {
          assert p in packs;
        }
      }
      forall r | r in d.rewrite ensures SoundRewrite(packs, live, covered, r) {
        if r in rest.rewrite {
          SoundWidens(packs, live, covered, more, r);
        } else {
          FilterStrict(p.hashes, live - covered, DigestKey);
          assert p in packs;
        }
      }
    }
  }

  lemma SoundWidens(packs: seq<PackState>, live: set<Digest>, covered: set<Digest>, more: set<Digest>, r: Rewrite)
    requires packs != [] && covered <= more && SoundRewrite(packs[1..], live, more, r)
    ensures SoundRewrite(packs, live, covered, r)
  {
    var q :| q in packs[1..] && q.stem == r.pack && HasGarbage(q, live) && Elements(r.keep) <= Elements(q.hashes) * live - more;
    assert q in packs;
  }

  /** No live object of a pack with garbage is lost: it was covered, or some
      replacement holds it. */
  lemma {:induction false} DecideCovers(packs: seq<PackState>, live: set<Digest>, covered: set<Digest>)
    ensures forall p | p in packs && HasGarbage(p, live) ::
              Elements(p.hashes) * live <= covered + Kept(Decide(packs, live, covered).rewrite)
    decreases |packs|
  {
    if packs != [] {
      var p, more := packs[0], CoveredNext(packs[0], live, covered);
      var keep := Filter(p.hashes, live - covered);
      DecideStep(packs, live, covered);
      DecideCovers(packs[1..], live, more);
      KeptCons(Rewrite(p.stem, keep), Decide(packs[1..], live, more).rewrite);
      forall q | q in packs && HasGarbage(q, live)
        ensures Elements(q.hashes) * live <= covered + Kept(Decide(packs, live, covered).rewrite)
      {
        if q != p {
          assert q in packs[1..];
        }
      }
    }
  }

  lemma DisjointCons(r: Rewrite, rs: seq<Rewrite>)
    requires PairwiseDisjoint(rs)
    requires forall q | q in rs :: Elements(r.keep) !! Elements(q.keep)
    ensures PairwiseDisjoint([r] + rs)
  {
  }

  /** No object is copied twice. */
  lemma {:induction false} DecideDisjoint(packs: seq<PackState>, live: set<Digest>, covered: set<Digest>)
    requires AllSorted(packs)
    ensures PairwiseDisjoint(Decide(packs, live, covered).rewrite)
    decreases |packs|
  {
    if packs != [] {
      var p, more := packs[0], CoveredNext(packs[0], live, covered);
      DecideStep(packs, live, covered);
      DecideDisjoint(packs[1..], live, more);
      if HasGarbage(p, live) {
        var keep := Filter(p.hashes, live - covered);
        var rs := Decide(packs[1..], live, more).rewrite;
        DecideSound(packs[1..], live, more);
        forall q | q in rs ensures Elements(keep) !! Elements(q.keep) {
          assert SoundRewrite(packs[1..], live, more, q);
        }
        DisjointCons(Rewrite(p.stem, keep), rs);
      }
    }
  }

  ghost predicate DistinctStems(packs: seq<PackState>) {
    forall i, j | 0 <= i < j < |packs| :: packs[i].stem != packs[j].stem
  }

  lemma RewrittenPacksCons(r: Rewrite, rs: seq<Rewrite>)
    ensures RewrittenPacks([r] + rs) == [r.pack] + RewrittenPacks(rs)
  {
  }

  lemma DistinctMiddle<T>(a: seq<T>, x: T, b: seq<T>)
    requires Distinct(a + b) && x !in a && x !in b
    ensures Distinct(a + ([x] + b))
    ensures Distinct(([x] + a) + b)
  {
    var all := a + ([x] + b);
    forall i, j | 0 <= i < j < |all| ensures all[i] != all[j] {
      var k := if i < |a| then i else i - 1;
      var l := if j < |a| then j else j - 1;
      if i != |a| { assert all[i] == (a + b)[k]; }
      if j != |a| { assert all[j] == (a + b)[l]; }
    }
    assert ([x] + a) + b == [x] + (a + b);
  }

  /** Every pack with garbage is either removed or rewritten, and each once. */
  lemma {:induction false} DecideComplete(packs: seq<PackState>, live: set<Digest>, covered: set<Digest>)
    requires AllSorted(packs) && DistinctStems(packs)
    ensures var d := Decide(packs, live, covered);
            Distinct(d.remove + RewrittenPacks(d.rewrite))
    ensures forall p | p in packs && HasGarbage(p, live) ::
              p.stem in Decide(packs, live, covered).remove || p.stem in RewrittenPacks(Decide(packs, live, covered).rewrite)
    decreases |packs|
  {
    if packs != [] {
      var p, more := packs[0], CoveredNext(packs[0], live, covered);
      DecideStep(packs, live, covered);
      DecideComplete(packs[1..], live, more);
      var rest := Decide(packs[1..], live, more);
      NotDecided(packs, live, more);
      DistinctMiddle(rest.remove, p.stem, RewrittenPacks(rest.rewrite));
      RewrittenPacksCons(Rewrite(p.stem, Filter(p.hashes, live - covered)), rest.rewrite);
      forall q | q in packs && HasGarbage(q, live)
        ensures q.stem in Decide(packs, live, covered).remove ||
                q.stem in RewrittenPacks(Decide(packs, live, covered).rewrite)
      {
        if q != p {
          assert q in packs[1..];
        }
      }
    }
  }

  lemma NotDecided(packs: seq<PackState>, live: set<Digest>, more: set<Digest>)
    requires packs != [] && AllSorted(packs) && DistinctStems(packs)
    ensures var rest := Decide(packs[1..], live, more);
            packs[0].stem !in rest.remove && packs[0].stem !in RewrittenPacks(rest.rewrite)
  {
    var rest := Decide(packs[1..], live, more);
    DecideSound(packs[1..], live, more);
    forall p | p in packs[1..] ensures p.stem != packs[0].stem {
      var i :| 0 <= i < |packs[1..]| && packs[1..][i] == p;
      assert packs[i + 1] == p;
    }
    forall i | 0 <= i < |rest.rewrite| ensures rest.rewrite[i].pack != packs[0].stem {
      assert SoundRewrite(packs[1..], live, more, rest.rewrite[i]);
    }
  }

  /* The inventory */

  lemma {:induction false} PackStatesExact(f: Files, stems: seq<Name>)
    requires Distinct(stems)
    ensures var packs := PackStates(f, stems);
            && AllSorted(packs)
            && DistinctStems(packs)
            && (forall p | p in packs :: p.stem in stems && Indexed(f, p.stem) && Elements(p.hashes) == HashesOf(f, p.stem) &&
                  p == PackState(p.stem, SortedDigests(HashesOf(f, p.stem))))
            && (forall s | s in stems && Indexed(f, s) :: PackState(s, SortedDigests(HashesOf(f, s))) in packs)
  {
    if stems != [] {
      var front, s := stems[..|stems| - 1], stems[|stems| - 1];
      hide SortedDigests, HashesOf, Indexed;
      PackStatesExact(f, front);
      assert s !in front;
      assert stems == front + [s];
      SortedHashesOf(f, s);
    }
  }

  lemma SortedHashesOf(f: Files, s: Name)
    ensures StrictlySorted(SortedDigests(HashesOf(f, s)), DigestKey)
    ensures Elements(SortedDigests(HashesOf(f, s))) == HashesOf(f, s)
  {
  }

  /** The decision of a plan in terms of the tree. */
  lemma PlanFacts(f: Files, live: set<Digest>)
    ensures var plan := PlanOf(f, live);
            && (forall s | s in plan.packsToRemove :: Partial(f, live, s))
            && (forall r | r in plan.packsToRewrite :: Partial(f, live, r.pack) && r.keep != [] && StrictlySorted(r.keep, DigestKey) &&
                  Elements(r.keep) <= HashesOf(f, r.pack) * live - ListedHashes(f) - HealthyIn(f, live))
            && PairwiseDisjoint(plan.packsToRewrite)
            && Distinct(plan.packsToRemove + RewrittenPacks(plan.packsToRewrite))
    ensures forall s | Partial(f, live, s) ::
              && (s in PlanOf(f, live).packsToRemove || s in RewrittenPacks(PlanOf(f, live).packsToRewrite))
              && HashesOf(f, s) * live <= ListedHashes(f) + HealthyIn(f, live) + Kept(PlanOf(f, live).packsToRewrite)
  {
    var packs := PackStates(f, Listing(f));
    var covered := ListedHashes(f) * live + HealthyHashes(packs, live);
    StrictDistinct(Listing(f), StemKey);
    PackStatesExact(f, Listing(f));
    HealthyInExact(f, live, packs);
    DecideSound(packs, live, covered);
    DecideCovers(packs, live, covered);
    DecideDisjoint(packs, live, covered);
    DecideComplete(packs, live, covered);
    forall r | r in PlanOf(f, live).packsToRewrite
      ensures Partial(f, live, r.pack) && r.keep != [] && StrictlySorted(r.keep, DigestKey)
      ensures Elements(r.keep) <= HashesOf(f, r.pack) * live - ListedHashes(f) - HealthyIn(f, live)
    {
      assert SoundRewrite(packs, live, covered, r);
    }
    forall s | Partial(f, live, s)
      ensures s in PlanOf(f, live).packsToRemove || s in RewrittenPacks(PlanOf(f, live).packsToRewrite)
      ensures HashesOf(f, s) * live <= ListedHashes(f) + HealthyIn(f, live) + Kept(PlanOf(f, live).packsToRewrite)
    {
      var p := PackState(s, SortedDigests(HashesOf(f, s)));
      assert s in Listing(f) && p in packs;
      assert Elements(p.hashes) == HashesOf(f, s);
    }
  }

  /** The digests of the packs without garbage. */
  ghost function HealthyIn(f: Files, live: set<Digest>): set<Digest> {
    set s, h | s in PackStems(f) && Healthy(f, live, s) && h in HashesOf(f, s) :: h
  }

  lemma HealthyInExact(f: Files, live: set<Digest>, packs: seq<PackState>)
    requires packs == PackStates(f, Listing(f))
    ensures HealthyHashes(packs, live) == HealthyIn(f, live)
    ensures forall h :: h in HealthyIn(f, live) <==> exists s :: Healthy(f, live, s) && h in HashesOf(f, s)
  {
    PackStemsExact(f);
    StrictDistinct(Listing(f), StemKey);
    PackStatesExact(f, Listing(f));
    forall h | h in HealthyIn(f, live) ensures h in HealthyHashes(packs, live) {
      var s :| s in PackStems(f) && Healthy(f, live, s) && h in HashesOf(f, s);
      var p := PackState(s, SortedDigests(HashesOf(f, s)));
      assert s in Listing(f) && p in packs;
      assert Elements(p.hashes) == HashesOf(f, s);
    }
    forall h | h in HealthyHashes(packs, live) ensures h in HealthyIn(f, live) {
      var p :| p in packs && !HasGarbage(p, live) && h in p.hashes;
      assert h in Elements(p.hashes);
    }
  }

  /** The coverage rule as a whole, for every tree and live set: the `keep`
      lists are non-empty, pairwise disjoint, and their union is exactly the
      live objects of partial packs that are neither listed nor in a pack
      without garbage. So every such object is copied exactly once, and no other
      object is copied. */
  lemma CoverageExact(f: Files, live: set<Digest>)
    ensures var rs := PlanOf(f, live).packsToRewrite;
            && (forall r | r in rs :: r.keep != [] && StrictlySorted(r.keep, DigestKey))
            && PairwiseDisjoint(rs)
    ensures forall h :: h in Kept(PlanOf(f, live).packsToRewrite) <==>
              && h in live
              && h !in ListedHashes(f)
              && (exists s :: Partial(f, live, s) && h in HashesOf(f, s))
              && !(exists s :: Healthy(f, live, s) && h in HashesOf(f, s))
  {
    hide PlanOf, PackStates, HealthyIn, Kept;
    PlanFacts(f, live);
    var rs := PlanOf(f, live).packsToRewrite;
    forall h ensures h in Kept(rs) <==>
      && h in live
      && h !in ListedHashes(f)
      && (exists s :: Partial(f, live, s) && h in HashesOf(f, s))
      && !(exists s :: Healthy(f, live, s) && h in HashesOf(f, s))
    {
      HealthyInExact(f, live, PackStates(f, Listing(f)));
      KeptExact(f, live, h);
    }
  }

  lemma KeptExact(f: Files, live: set<Digest>, h: Digest)
    ensures h in Kept(PlanOf(f, live).packsToRewrite) <==>
              && h in live
              && h !in ListedHashes(f)
              && (exists s :: Partial(f, live, s) && h in HashesOf(f, s))
              && h !in HealthyIn(f, live)
  {
    hide PlanOf, PackStates, HealthyIn;
    var rs := PlanOf(f, live).packsToRewrite;
    PlanFacts(f, live);
    if h in Kept(rs) {
      var r :| r in rs && h in r.keep;
      assert h in Elements(r.keep);
    } else if s :| Partial(f, live, s) && h in HashesOf(f, s) {
      assert h in live ==> h in HashesOf(f, s) * live;
    }
  }
}

/** Planning again on a tree that a sweep has worked on. */
module GcReplan {
  import opened Bytes
  import opened Codecs
  import opened Disks
  import opened GcModel
  import opened GcPlanning
  import opened GcRewrite
  import opened GcSafety
  import opened Inventory
  import opened PackFormat
  import opened PackTheorems
  import opened Sorting

  function PackKey(p: PackState): Bytes {
    StemKey(p.stem)
  }

  lemma {:induction false} PackStatesSorted(f: Files, stems: seq<Name>)
    requires StrictlySorted(stems, StemKey)
    ensures StrictlySorted(PackStates(f, stems), PackKey)
    ensures forall p | p in PackStates(f, stems) :: p.stem in stems
  {
    hide Less, StemKey, SortedDigests, HashesOf, Indexed;
    if stems != [] {
      var front, s := stems[..|stems| - 1], stems[|stems| - 1];
      assert forall i | 0 <= i < |front| :: front[i] == stems[i];
      PackStatesSorted(f, front);
      var packs := PackStates(f, front);
      forall i | 0 <= i < |packs| ensures Less(PackKey(packs[i]), StemKey(s)) {
        assert packs[i] in packs;
        var j :| 0 <= j < |front| && front[j] == packs[i].stem;
        assert Less(StemKey(stems[j]), StemKey(stems[|stems| - 1]));
      }
    }
  }

  lemma IndexedListed(f: Files, s: Name)
    ensures Indexed(f, s) ==> s in Listing(f)
  {
    hide ParseIndex;
  }

  /** Taking away some of the packs that are to be removed changes no other
      decision. */
  lemma {:induction false} DecideWithoutRemoved(packs: seq<PackState>, kept: set<PackState>, live: set<Digest>, covered: set<Digest>)
    requires AllSorted(packs) && DistinctStems(packs)
    requires forall p | p in packs && p !in kept :: p.stem in Decide(packs, live, covered).remove
    ensures Decide(Filter(packs, kept), live, covered).rewrite == Decide(packs, live, covered).rewrite
    ensures forall s | s in Decide(Filter(packs, kept), live, covered).remove ::
              s in Decide(packs, live, covered).remove && exists p :: p in packs && p in kept && p.stem == s
    decreases |packs|
  {
    if packs != [] {
      var p, more := packs[0], CoveredNext(packs[0], live, covered);
      var rest := Decide(packs[1..], live, more);
      DecideStep(packs, live, covered);
      NotDecided(packs, live, more);
      forall q | q in packs[1..] ensures q in packs && (q !in kept ==> q.stem in rest.remove) {
        var i :| 0 <= i < |packs[1..]| && packs[1..][i] == q;
        assert packs[i + 1] == q && q.stem != p.stem;
      }
      DecideWithoutRemoved(packs[1..], kept, live, more);
      assert p in packs;
      var all, tail := Filter(packs, kept), Filter(packs[1..], kept);
      if p in kept {
        assert all == [p] + tail && all[1..] == tail;
        DecideStep(all, live, covered);
      } else {
        assert all == tail;
        RemovedCoversNothing(packs, live, covered);
      }
    }
  }

  lemma RemovedCoversNothing(packs: seq<PackState>, live: set<Digest>, covered: set<Digest>)
    requires packs != [] && AllSorted(packs) && DistinctStems(packs)
    requires packs[0].stem in Decide(packs, live, covered).remove
    ensures CoveredNext(packs[0], live, covered) == covered
  {
    DecideStep(packs, live, covered);
    NotDecided(packs, live, CoveredNext(packs[0], live, covered));
  }

  /* Planning again after some of the replacements */

  ghost function PartialStates(packs: seq<PackState>, live: set<Digest>): set<PackState> {
    set p | p in packs && HasGarbage(p, live)
  }

  /** Packs without garbage take no part in a decision. */
  lemma {:induction false} DecideSkipsHealthy(packs: seq<PackState>, partial: set<PackState>, live: set<Digest>, covered: set<Digest>)
    requires forall p | p in packs :: p in partial <==> HasGarbage(p, live)
    ensures Decide(Filter(packs, partial), live, covered) == Decide(packs, live, covered)
    decreases |packs|
  {
    if packs != [] {
      var p, more := packs[0], CoveredNext(packs[0], live, covered);
      assert p in packs;
      DecideStep(packs, live, covered);
      DecideSkipsHealthy(packs[1..], partial, live, more);
      var all, tail := Filter(packs, partial), Filter(packs[1..], partial);
      if HasGarbage(p, live) {
        assert all == [p] + tail && all[1..] == tail;
        DecideStep(all, live, covered);
      }
    }
  }

  /** What is covered after the first pack, when its replacement is among those
      that are there. */
  lemma CoveredByFirst(p: PackState, live: set<Digest>, covered: set<Digest>, rest: seq<Rewrite>, i: nat)
    requires HasGarbage(p, live) && 0 < i <= |rest| + 1
    ensures var keep := Filter(p.hashes, live - covered);
            var covered' := covered + Kept(([Rewrite(p.stem, keep)] + rest)[..i]);
            && covered' == CoveredNext(p, live, covered) + Kept(rest[..i - 1])
            && Filter(p.hashes, live - covered') == []
  {
    hide Kept;
    var keep := Filter(p.hashes, live - covered);
    var r := Rewrite(p.stem, keep);
    assert ([r] + rest)[..i] == [r] + rest[..i - 1];
    KeptCons(r, rest[..i - 1]);
    NothingLeft(p.hashes, live - covered, covered + Kept([r] + rest[..i - 1]), live);
  }

  /** Once what the first `i` replacements hold is covered, exactly the other
      replacements are decided on. */
  lemma {:induction false} DecideAfterSome(packs: seq<PackState>, live: set<Digest>, covered: set<Digest>, i: nat)
    requires i <= |Decide(packs, live, covered).rewrite|
    ensures var rs := Decide(packs, live, covered).rewrite;
            Decide(packs, live, covered + Kept(rs[..i])).rewrite == rs[i..]
    decreases |packs|
  {
    var rs := Decide(packs, live, covered).rewrite;
    if i == 0 {
      assert covered + Kept(rs[..i]) == covered;
    } else if packs != [] {
      hide Decide, Filter, Kept, HasGarbage;
      var p, more := packs[0], CoveredNext(packs[0], live, covered);
      var keep, rest := Filter(p.hashes, live - covered), Decide(packs[1..], live, more).rewrite;
      var covered' := covered + Kept(rs[..i]);
      DecideStep(packs, live, covered);
      DecideStep(packs, live, covered');
      if HasGarbage(p, live) && keep != [] {
        CoveredByFirst(p, live, covered, rest, i);
        NoneCovers(p, live, covered');
        DecideAfterSome(packs[1..], live, more, i - 1);
        assert rs[i..] == rest[i - 1..];
      } else {
        assert more == covered by { if HasGarbage(p, live) { NoneCovers(p, live, covered); } }
        if HasGarbage(p, live) {
          NothingLeft(p.hashes, live - covered, covered', live);
          NoneCovers(p, live, covered');
        }
        DecideAfterSome(packs[1..], live, covered, i);
      }
    }
  }

  lemma NoneCovers(p: PackState, live: set<Digest>, covered: set<Digest>)
    requires Filter(p.hashes, live - covered) == []
    ensures CoveredNext(p, live, covered) == covered
  {
  }

  lemma NothingLeft(hs: seq<Digest>, uncovered: set<Digest>, covered: set<Digest>, live: set<Digest>)
    requires Elements(Filter(hs, uncovered)) <= covered && live - covered <= uncovered
    ensures Filter(hs, live - covered) == []
  {
    assert forall h :: h !in Filter(hs, live - covered) by {
      assert forall h | h in hs && h in uncovered :: h in Elements(Filter(hs, uncovered));
    }
    FirstIn(Filter(hs, live - covered));
  }

  /** The same packs with garbage, except that some are gone. */
  ghost predicate FewerPartials(f: Files, f': Files, live: set<Digest>) {
    forall s | Partial(f', live, s) :: Partial(f, live, s) && HashesOf(f, s) == HashesOf(f', s)
  }

  ghost predicate SamePartials(f: Files, f': Files, live: set<Digest>) {
    FewerPartials(f, f', live) && forall s | Partial(f, live, s) :: Partial(f', live, s)
  }

  ghost function PartialList(f: Files, live: set<Digest>): seq<PackState> {
    var packs := PackStates(f, Listing(f));
    Filter(packs, PartialStates(packs, live))
  }

  lemma PartialListExact(f: Files, live: set<Digest>)
    ensures var packs := PartialList(f, live);
            && StrictlySorted(packs, PackKey) && AllSorted(packs) && DistinctStems(packs)
            && forall p :: p in packs <==> Partial(f, live, p.stem) && p == PackState(p.stem, SortedDigests(HashesOf(f, p.stem)))
  {
    hide ParseIndex, Indexed, HashesOf, PackStates, Listing, SortedDigests;
    var all, packs := PackStates(f, Listing(f)), PartialList(f, live);
    PartialStatesExact(f, live);
    FilterStrict(all, PartialStates(all, live), PackKey);
    assert forall p | p in packs :: p in PartialStates(all, live);
    forall p | p in packs ensures StrictlySorted(p.hashes, DigestKey) {
      SortedHashesOf(f, p.stem);
    }
    StrictDistinct(packs, PackKey);
  }

  /** The list of a tree that lost some of its partial packs. */
  lemma FewerPartialStates(f: Files, f': Files, live: set<Digest>)
    requires FewerPartials(f, f', live)
    ensures Filter(PartialList(f, live), Elements(PartialList(f', live))) == PartialList(f', live)
  {
    hide ParseIndex, Indexed, HashesOf, PartialList, SortedDigests;
    PartialListExact(f, live);
    PartialListExact(f', live);
    var a, b := PartialList(f, live), PartialList(f', live);
    FilterStrict(a, Elements(b), PackKey);
    StrictUnique(Filter(a, Elements(b)), b, PackKey);
  }

  lemma PartialStatesExact(f: Files, live: set<Digest>)
    ensures var packs := PackStates(f, Listing(f));
            && StrictlySorted(packs, PackKey)
            && forall p :: p in PartialStates(packs, live) <==>
                 Partial(f, live, p.stem) && p == PackState(p.stem, SortedDigests(HashesOf(f, p.stem)))
  {
    hide ParseIndex, PackStates, Listing;
    StrictDistinct(Listing(f), StemKey);
    PackStatesExact(f, Listing(f));
    PackStatesSorted(f, Listing(f));
    var packs := PackStates(f, Listing(f));
    forall p ensures p in PartialStates(packs, live) <==>
      Partial(f, live, p.stem) && p == PackState(p.stem, SortedDigests(HashesOf(f, p.stem)))
    {
      IndexedListed(f, p.stem);
      assert Elements(SortedDigests(HashesOf(f, p.stem))) == HashesOf(f, p.stem);
    }
  }

  /** A tree that has lost only partial packs without a replacement still to come,
      and in which the other replacements have joined the packs without garbage,
      has exactly those still to come in its plan. */
  lemma ReplanAfter(f: Files, f': Files, live: set<Digest>, i: nat)
    requires FewerPartials(f, f', live)
    requires i <= |PlanOf(f, live).packsToRewrite|
    requires forall s | Partial(f, live, s) && !Partial(f', live, s) :: s !in RewrittenPacks(PlanOf(f, live).packsToRewrite[i..])
    requires ListedHashes(f') * live == ListedHashes(f) * live
    requires HealthyIn(f', live) == HealthyIn(f, live) + Kept(PlanOf(f, live).packsToRewrite[..i])
    ensures PlanOf(f', live).packsToRewrite == PlanOf(f, live).packsToRewrite[i..]
  {
    hide ParseIndex, Indexed, HashesOf, PackStates, Listing, HealthyIn, HealthyHashes, SumSizes, Present, Kept, LooseGarbage, OrphanList, Unreadable, Decide, ListedHashes, Filter, Partial;
    var packs, packs' := PackStates(f, Listing(f)), PackStates(f', Listing(f'));
    HealthyInExact(f, live, packs);
    HealthyInExact(f', live, packs');
    var covered := ListedHashes(f) * live + HealthyIn(f, live);
    var covered' := ListedHashes(f') * live + HealthyIn(f', live);
    assert covered' == covered + Kept(PlanOf(f, live).packsToRewrite[..i]);
    DecideSkipsHealthy(packs, PartialStates(packs, live), live, covered');
    DecideSkipsHealthy(packs', PartialStates(packs', live), live, covered');
    DecideAfterSome(packs, live, covered, i);
    WithoutTheLost(f, f', live, covered');
  }

  lemma WithoutTheLost(f: Files, f': Files, live: set<Digest>, covered: set<Digest>)
    requires FewerPartials(f, f', live)
    requires forall s | Partial(f, live, s) && !Partial(f', live, s) :: s !in RewrittenPacks(Decide(PartialList(f, live), live, covered).rewrite)
    ensures Decide(PartialList(f', live), live, covered).rewrite == Decide(PartialList(f, live), live, covered).rewrite
  {
    hide ParseIndex, Indexed, HashesOf, PartialList, Decide, SortedDigests, Filter, RewrittenPacks;
    var a, b := PartialList(f, live), PartialList(f', live);
    PartialListExact(f, live);
    PartialListExact(f', live);
    FewerPartialStates(f, f', live);
    DecideComplete(a, live, covered);
    forall p | p in a && p !in Elements(b) ensures p.stem in Decide(a, live, covered).remove {
      PartialHasGarbage(f, live, p);
      LostIsMissing(f, f', live, p);
    }
    DecideWithoutRemoved(a, Elements(b), live, covered);
  }

  lemma LostIsMissing(f: Files, f': Files, live: set<Digest>, p: PackState)
    requires FewerPartials(f, f', live) && p in PartialList(f, live) && p !in PartialList(f', live)
    ensures !Partial(f', live, p.stem)
  {
    hide ParseIndex, Indexed, HashesOf, PartialList, SortedDigests;
    PartialListExact(f, live);
    PartialListExact(f', live);
  }

  lemma PartialHasGarbage(f: Files, live: set<Digest>, p: PackState)
    requires p == PackState(p.stem, SortedDigests(HashesOf(f, p.stem))) && Partial(f, live, p.stem)
    ensures HasGarbage(p, live)
  {
    SortedHashesOf(f, p.stem);
  }

  /* The tree after the first replacements */

  /** Phase 1 is one pack write and one index write per replacement. */
  lemma {:induction false} ReplacementStepsAt(c: Codec, g: Contents, rs: seq<Rewrite>, i: nat)
    requires i < |rs|
    ensures var steps := ReplacementSteps(c, g, rs);
            && |steps| == 2 * |rs|
            && steps[2 * i] == NewSteps(c, g, rs[i])[0]
            && steps[2 * i + 1] == NewSteps(c, g, rs[i])[1]
            && steps[..2 * i] == ReplacementSteps(c, g, rs[..i])
    decreases |rs|
  {
    hide NewSteps, PackBytes, CreatedIndex, NewName;
    var w, rest := NewSteps(c, g, rs[0]), rs[1..];
    var later := ReplacementSteps(c, g, rest);
    NewStepsShape(c, g, rs[0]);
    PhaseOneLength(c, g, rest);
    assert ReplacementSteps(c, g, rs) == w + later;
    if i == 0 {
      assert (w + later)[..0] == [] && rs[..0] == [];
    } else {
      ReplacementStepsAt(c, g, rest, i - 1);
      AfterPair(w, later, i);
      assert rs[..i] == [rs[0]] + rest[..i - 1];
      assert ReplacementSteps(c, g, rs[..i]) == w + ReplacementSteps(c, g, rest[..i - 1]);
    }
  }

  lemma AfterPair<T>(w: seq<T>, rest: seq<T>, i: nat)
    requires |w| == 2 && 0 < i && 2 * i <= |rest|
    ensures (w + rest)[2 * i] == rest[2 * (i - 1)] && (w + rest)[2 * i + 1] == rest[2 * (i - 1) + 1]
    ensures (w + rest)[..2 * i] == w + rest[..2 * (i - 1)]
  {
  }

  lemma FirstReplacements(c: Codec, g: Contents, f: Files, live: set<Digest>, i: nat)
    requires Sweepable(c, g, f, live) && i <= |PlanOf(f, live).packsToRewrite|
    ensures var rs := PlanOf(f, live).packsToRewrite[..i];
            AllReady(c, g, f, rs) && Rewritten(c, g, f, ApplyAll(f, ReplacementSteps(c, g, rs)), rs)
  {
    hide ParseIndex, ReadBlob, PlanOf, WellFormed, Ready, Rewritten, RewritePhase;
    var all, rs := PlanOf(f, live).packsToRewrite, PlanOf(f, live).packsToRewrite[..i];
    PlanReady(c, g, f, live);
    assert forall r | r in rs :: r in all;
    assert PairwiseDisjoint(rs);
    RewriteAll(c, g, f, rs);
  }

  /** A pack that reads, or fails to, as before. */
  ghost predicate SameInventory(f: Files, f': Files, s: Name) {
    Indexed(f, s) == Indexed(f', s) && HashesOf(f, s) == HashesOf(f', s)
  }

  ghost predicate HoldsKeep(c: Codec, g: Contents, f: Files, rs: seq<Rewrite>, s: Name) {
    Indexed(f, s) && exists r :: r in rs && s == NewName(c, g, r) && HashesOf(f, s) == Elements(r.keep)
  }

  lemma PackAfterRewriting(c: Codec, g: Contents, f: Files, f1: Files, rs: seq<Rewrite>, s: Name)
    requires Rewritten(c, g, f, f1, rs)
    ensures SameInventory(f, f1, s) || (!Indexed(f, s) && HoldsKeep(c, g, f1, rs, s))
  {
    hide ParseIndex, ReadBlob, WellFormed, NewName, HasReplacement, Present;
    if Indexed(f, s) || !IsNewPath(c, g, rs, Pack(s)) {
      assert SamePack(f, f1, s);
      SamePackHashes(f, f1, s);
    }
  }

  lemma HealthyInMeans(f: Files, live: set<Digest>, h: Digest)
    ensures h in HealthyIn(f, live) <==> exists s :: Healthy(f, live, s) && h in HashesOf(f, s)
  {
    hide ParseIndex;
    HealthyInExact(f, live, PackStates(f, Listing(f)));
  }

  lemma SameListing(f: Files, f': Files)
    requires forall p: Path | p.Loose? || p.Alias? :: SameAt(f, f', p)
    ensures LooseHashes(f') == LooseHashes(f)
    ensures ListedHashes(f') == ListedHashes(f)
  {
    assert forall p: Path | p.Loose? || p.Alias? :: p in f <==> p in f';
    assert LooseHashes(f') == LooseHashes(f);
    assert ListedHashes(f') == ListedHashes(f);
  }

  /** Writing replacements leaves the partial packs and adds the replacements to
      the packs without garbage. */
  lemma RewrittenInventory(c: Codec, g: Contents, f: Files, f1: Files, live: set<Digest>, rs: seq<Rewrite>)
    requires Rewritten(c, g, f, f1, rs)
    requires forall r | r in rs :: Elements(r.keep) <= live
    ensures SamePartials(f, f1, live)
    ensures LooseHashes(f1) == LooseHashes(f) && ListedHashes(f1) == ListedHashes(f)
    ensures HealthyIn(f1, live) == HealthyIn(f, live) + Kept(rs)
  {
    hide ParseIndex, ReadBlob, WellFormed, NewName, Indexed, HashesOf, HasReplacement, Present, LooseHashes, ListedHashes, HealthyIn, Kept;
    forall s
      ensures Partial(f, live, s) == Partial(f1, live, s)
      ensures Partial(f, live, s) ==> HashesOf(f, s) == HashesOf(f1, s)
    {
      PackAfterRewriting(c, g, f, f1, rs, s);
    }
    SameListing(f, f1);
    forall h: Digest ensures h in HealthyIn(f1, live) <==> h in HealthyIn(f, live) + Kept(rs) {
      HealthyInMeans(f, live, h);
      HealthyInMeans(f1, live, h);
      if s :| Healthy(f, live, s) && h in HashesOf(f, s) {
        PackAfterRewriting(c, g, f, f1, rs, s);
        assert Healthy(f1, live, s);
      }
      if s :| Healthy(f1, live, s) && h in HashesOf(f1, s) {
        PackAfterRewriting(c, g, f, f1, rs, s);
        NewHealthy(c, g, f, f1, live, rs, s, h);
      }
      if h in Kept(rs) {
        KeptIsHealthy(c, g, f, f1, live, rs, h);
      }
    }
  }

  lemma NewHealthy(c: Codec, g: Contents, f: Files, f1: Files, live: set<Digest>, rs: seq<Rewrite>, s: Name, h: Digest)
    requires Healthy(f1, live, s) && h in HashesOf(f1, s)
    requires SameInventory(f, f1, s) || HoldsKeep(c, g, f1, rs, s)
    ensures h in Kept(rs) || (Healthy(f, live, s) && h in HashesOf(f, s))
  {
    hide Indexed, HashesOf, NewName;
    if r :| r in rs && HashesOf(f1, s) == Elements(r.keep) {
      assert h in Elements(r.keep);
    }
  }

  lemma KeptIsHealthy(c: Codec, g: Contents, f: Files, f1: Files, live: set<Digest>, rs: seq<Rewrite>, h: Digest)
    requires Rewritten(c, g, f, f1, rs) && h in Kept(rs)
    requires forall r | r in rs :: Elements(r.keep) <= live
    ensures exists s :: Healthy(f1, live, s) && h in HashesOf(f1, s)
  {
    hide Indexed, HashesOf, NewName, WellFormed, KeepsReadable, Present, AllIndexed;
    var r :| r in rs && h in r.keep;
    assert h in Elements(r.keep) && Healthy(f1, live, NewName(c, g, r));
  }

  /** Trees with the same loose blobs and the same indexed packs. */
  ghost predicate SameHoldings(f: Files, f': Files) {
    (forall p: Path | p.Loose? || p.Alias? :: SameAt(f, f', p)) && (forall s :: SameInventory(f, f', s))
  }

  lemma SameHoldingsPlanAlike(f: Files, f': Files, live: set<Digest>)
    requires SameHoldings(f, f')
    ensures SamePartials(f, f', live)
    ensures LooseHashes(f') == LooseHashes(f) && ListedHashes(f') == ListedHashes(f)
    ensures HealthyIn(f', live) == HealthyIn(f, live)
  {
    hide ParseIndex, HealthyIn, LooseHashes, ListedHashes, Indexed, HashesOf;
    forall s
      ensures Partial(f, live, s) == Partial(f', live, s)
      ensures Partial(f, live, s) ==> HashesOf(f, s) == HashesOf(f', s)
    {
      assert SameInventory(f, f', s);
    }
    SameListing(f, f');
    forall h: Digest ensures h in HealthyIn(f', live) <==> h in HealthyIn(f, live) {
      HealthyInMeans(f, live, h);
      HealthyInMeans(f', live, h);
      if s :| Healthy(f, live, s) && h in HashesOf(f, s) {
        assert SameInventory(f, f', s) && Healthy(f', live, s);
      }
      if s :| Healthy(f', live, s) && h in HashesOf(f', s) {
        assert SameInventory(f, f', s) && Healthy(f, live, s);
      }
    }
  }

  /** Files of a pack that loads neither before nor after make no difference. */
  lemma UnreadHoldings(f: Files, f': Files, q: Name)
    requires !Indexed(f, q) && !Indexed(f', q)
    requires forall p | p != Pack(q) && p != Idx(q) :: SameAt(f, f', p)
    ensures SameHoldings(f, f')
  {
    hide ParseIndex;
    forall s ensures SameInventory(f, f', s) {
      if s != q {
        assert SamePack(f, f', s);
        SamePackHashes(f, f', s);
      }
    }
  }

  /** The plan when the first `i` replacements are there. */
  lemma Replan(c: Codec, g: Contents, f: Files, live: set<Digest>, i: nat, f': Files)
    requires Sweepable(c, g, f, live) && i <= |PlanOf(f, live).packsToRewrite|
    requires SameHoldings(ApplyAll(f, ReplacementSteps(c, g, PlanOf(f, live).packsToRewrite[..i])), f')
    ensures PlanOf(f', live).packsToRewrite == PlanOf(f, live).packsToRewrite[i..]
    ensures !PlanFails(f', live)
  {
    hide ParseIndex, ReadBlob, PlanOf, WellFormed, NewName, Truthful, Rewritten, ReplacementSteps, Present, Ready, LooseHashes, ListedHashes, HealthyIn, Partial, Kept, SameHoldings;
    var rs := PlanOf(f, live).packsToRewrite;
    var f1 := ApplyAll(f, ReplacementSteps(c, g, rs[..i]));
    FirstReplacements(c, g, f, live, i);
    PlanFacts(f, live);
    assert forall r | r in rs[..i] :: r in rs;
    RewrittenInventory(c, g, f, f1, live, rs[..i]);
    SameHoldingsPlanAlike(f1, f', live);
    ReplanAfter(f, f', live, i);
  }

  /* The writes of phase 1 */

  lemma {:induction false} PhaseOneLength(c: Codec, g: Contents, rs: seq<Rewrite>)
    ensures |ReplacementSteps(c, g, rs)| == 2 * |rs|
    decreases |rs|
  {
    hide NewSteps;
    if rs != [] {
      NewStepsShape(c, g, rs[0]);
      PhaseOneLength(c, g, rs[1..]);
    }
  }

  /** Every write of a sweep belongs to phase 1. */
  lemma WriteInPhaseOne(c: Codec, g: Contents, f: Files, live: set<Digest>, o: Options, at: nat)
    requires Sweepable(c, g, f, live)
    requires at < |SweepSteps(c, f, live, o)| && SweepSteps(c, f, live, o)[at].Write?
    ensures !o.mode.DryRun? && o.rewritePartialPacks
    ensures var first, steps := ReplacementSteps(c, g, PlanOf(f, live).packsToRewrite), SweepSteps(c, f, live, o);
            at < |first| <= |steps| && steps[..|first|] == first
  {
    hide ParseIndex, ReadBlob, PlanOf, WellFormed, NewName, SweepSteps, Sweepable, Midway, VictimsOf, ApplyAll, EvictPhase, ReplacementSteps;
    DryRunIdleOr(c, f, live, o, at);
    SweepShape(c, g, f, live, o);
    EvictWritesNothing(Midway(c, f, live, o), o.mode, VictimsOf(f, live, o));
    NothingToReplace(c, g);
  }

  lemma NothingToReplace(c: Codec, g: Contents)
    ensures ReplacementSteps(c, g, []) == []
  {
  }

  /** Every write of a sweep is one of the two of some replacement, after all
      those of the replacements before it. */
  lemma WriteOfReplacement(c: Codec, g: Contents, f: Files, live: set<Digest>, o: Options, at: nat) returns (i: nat)
    requires Sweepable(c, g, f, live)
    requires at < |SweepSteps(c, f, live, o)| && SweepSteps(c, f, live, o)[at].Write?
    ensures var rs, steps := PlanOf(f, live).packsToRewrite, SweepSteps(c, f, live, o);
            && i < |rs| && 2 * i <= at < 2 * i + 2 <= |steps|
            && steps[2 * i] == NewSteps(c, g, rs[i])[0] && steps[2 * i + 1] == NewSteps(c, g, rs[i])[1]
            && steps[..2 * i] == ReplacementSteps(c, g, rs[..i])
  {
    hide ParseIndex, ReadBlob, PlanOf, WellFormed, NewName, SweepSteps, Sweepable, ApplyAll, NewSteps, ReplacementSteps;
    var rs, steps := PlanOf(f, live).packsToRewrite, SweepSteps(c, f, live, o);
    var first := ReplacementSteps(c, g, rs);
    WriteInPhaseOne(c, g, f, live, o, at);
    PhaseOneLength(c, g, rs);
    i := at / 2;
    ReplacementStepsAt(c, g, rs, i);
    assert steps[..|first|][2 * i] == steps[2 * i] && steps[..|first|][2 * i + 1] == steps[2 * i + 1];
    assert steps[..2 * i] == first[..2 * i];
  }

  lemma AfterFirstWrite(f: Files, steps: seq<Step>, k: nat, n: nat)
    requires k == n + 1 <= |steps|
    ensures ApplyAll(f, steps[..k]) == Apply(ApplyAll(f, steps[..n]), steps[n])
  {
    assert steps[..k] == steps[..n] + [steps[n]];
    ApplyAllConcat(f, steps[..n], [steps[n]]);
    ApplyOne(ApplyAll(f, steps[..n]), steps[n]);
  }

  lemma ReplacementPath(c: Codec, g: Contents, rs: seq<Rewrite>, k: nat)
    requires k < |ReplacementSteps(c, g, rs)|
    ensures ReplacementSteps(c, g, rs)[k].Write?
    ensures ReplacementSteps(c, g, rs)[k].path.Pack? || ReplacementSteps(c, g, rs)[k].path.Idx?
  {
    hide NewSteps, ReplacementSteps;
    PhaseOneLength(c, g, rs);
    ReplacementStepsAt(c, g, rs, k / 2);
    NewStepsShape(c, g, rs[k / 2]);
    assert k == 2 * (k / 2) || k == 2 * (k / 2) + 1;
  }

  lemma TornNameUnread(c: Codec, g: Contents, f: Files, live: set<Digest>, i: nat, n: nat)
    requires Sweepable(c, g, f, live) && i < |PlanOf(f, live).packsToRewrite|
    ensures var rs := PlanOf(f, live).packsToRewrite;
            && !Indexed(ApplyAll(f, ReplacementSteps(c, g, rs[..i])), NewName(c, g, rs[i]))
            && (n < |CreatedIndex(c, Objects(g, rs[i].keep))| ==> ParseIndex(CreatedIndex(c, Objects(g, rs[i].keep))[..n]).Err?)
  {
    hide ParseIndex, ReadBlob, PlanOf, WellFormed, NewName, ReplacementSteps, Ready, Rewritten, PlanFails, CreatedIndex, Indexed;
    var rs := PlanOf(f, live).packsToRewrite;
    PlanReady(c, g, f, live);
    FirstReplacements(c, g, f, live, i);
    NameStaysUnread(c, g, f, rs, i, ApplyAll(f, ReplacementSteps(c, g, rs[..i])));
    assert rs[i] in rs;
    if n < |CreatedIndex(c, Objects(g, rs[i].keep))| {
      TornNewIndex(c, g, f, rs[i], n);
    }
  }

  lemma TornNewIndex(c: Codec, g: Contents, f: Files, r: Rewrite, n: nat)
    requires WellFormed(c, g, f) && Ready(c, g, f, r) && n < |CreatedIndex(c, Objects(g, r.keep))|
    ensures ParseIndex(CreatedIndex(c, Objects(g, r.keep))[..n]).Err?
  {
    hide ParseIndex, ReadBlob, WellFormed, NewName, IndexBytes, HashesOf;
    KeepPackable(c, g, f, r.pack, r.keep);
    TornIndexRejected(EntriesOf(c, Objects(g, r.keep)), n);
  }

  lemma ReadyUnread(c: Codec, g: Contents, f: Files, r: Rewrite)
    requires Ready(c, g, f, r)
    ensures !Indexed(f, NewName(c, g, r))
  {
  }

  /** The replacements before it write no file under a replacement's name. */
  lemma FilesUnderLaterName(c: Codec, g: Contents, f: Files, rs: seq<Rewrite>, i: nat, f1: Files)
    requires Lawful(c) && WellFormed(c, g, f) && AllReady(c, g, f, rs) && i < |rs|
    requires Rewritten(c, g, f, f1, rs[..i])
    ensures SamePack(f, f1, NewName(c, g, rs[i]))
  {
    hide ParseIndex, ReadBlob, WellFormed, NewName, Ready, Indexed, HashesOf;
    var q := NewName(c, g, rs[i]);
    assert rs[i] in rs;
    forall r | r in rs[..i] ensures NewName(c, g, r) != q {
      var j :| 0 <= j < i && rs[j] == r;
      assert rs[j] in rs;
      NewNamesDiffer(c, g, f, rs[j], rs[i]);
    }
    assert !IsNewPath(c, g, rs[..i], Pack(q)) && !IsNewPath(c, g, rs[..i], Idx(q));
  }

  /** So they do not take its name. */
  lemma NameStaysUnread(c: Codec, g: Contents, f: Files, rs: seq<Rewrite>, i: nat, f1: Files)
    requires Lawful(c) && WellFormed(c, g, f) && AllReady(c, g, f, rs) && i < |rs|
    requires Rewritten(c, g, f, f1, rs[..i])
    ensures !Indexed(f1, NewName(c, g, rs[i]))
  {
    hide ParseIndex, ReadBlob, WellFormed, NewName, Rewritten, Ready, Indexed, HashesOf;
    assert rs[i] in rs;
    ReadyUnread(c, g, f, rs[i]);
    PackAfterRewriting(c, g, f, f1, rs[..i], NewName(c, g, rs[i]));
    forall r | r in rs[..i] ensures NewName(c, g, r) != NewName(c, g, rs[i]) {
      var j :| 0 <= j < i && rs[j] == r;
      assert rs[j] in rs;
      NewNamesDiffer(c, g, f, rs[j], rs[i]);
    }
  }
}
